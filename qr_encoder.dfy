/**
 * Data encodation of the QR encoder in main/static/js/qr-code.js (section
 * 7.4 of ISO/IEC 18004): the inner function `f(version, mode, data, n)` of
 * `L` writes the 4-bit mode indicator, the character count indicator and
 * the data in numeric, alphanumeric or octet mode into the bit buffer,
 * ends it with a terminator, fills the last codeword with zeros and pads
 * the result to n codewords with alternating 236 and 17.
 *
 * The encoder always writes a 4-bit terminator. When the data leaves fewer
 * than 4 bits before the end of the n codewords, section 7.4.9 of
 * ISO/IEC 18004 lets the terminator be cut short; the encoder as written
 * then emits one codeword more than the symbol holds. `DataCodewordsAsWritten`
 * keeps that behaviour and `DataCodewords`, used by the rest of the model,
 * cuts the terminator to the room left.
 */
module QrEncoder {
  import opened Wrappers
  import opened Text
  import opened QrCapacity
  import opened QrModes
  import opened QrBits

  /** 10 to the power k. */
  function Pow10(k: nat): (r: nat)
    ensures r >= 1
  {
    if k == 0 then 1 else 10 * Pow10(k - 1)
  }

  /** `parseInt(s, 10)` of a string of digits; the empty string, only ever written with width 0, counts as 0. */
  function DigitsValue(s: string): (r: nat)
    requires IsNumeric(s)
    ensures r < Pow10(|s|)
  {
    if s == [] then 0 else 10 * DigitsValue(s[..|s| - 1]) + (s[|s| - 1] as int - '0' as int)
  }

  /** The n-digit decimal numeral of value, with leading zeros. */
  function DigitsOf(value: int, n: nat): (r: string)
    ensures |r| == n && IsNumeric(r)
    decreases n
  {
    if n == 0 then [] else DigitsOf(value / 10, n - 1) + [('0' as int + value % 10) as char]
  }

  /** Reading a numeral and writing it back with as many digits gives the numeral, leading zeros included. */
  lemma {:induction false} DigitsRoundTrip(s: string)
    requires IsNumeric(s)
    ensures DigitsOf(DigitsValue(s), |s|) == s
  {
    if s != [] {
      var init := s[..|s| - 1];
      var d := s[|s| - 1] as int - '0' as int;
      DigitsRoundTrip(init);
      var v := DigitsValue(s);
      assert v == 10 * DigitsValue(init) + d && 0 <= d < 10;
      assert v / 10 == DigitsValue(init) && v % 10 == d;
      assert s == init + [s[|s| - 1]];
    }
  }

  /** Bits of a group of k digits: 0, 4, 7 or 10 for 0 to 3 digits (`[0, 4, 7][f % 3]` for the last group). */
  function DigitsWidth(k: nat): nat {
    if k == 0 then 0 else if k == 1 then 4 else if k == 2 then 7 else 10
  }

  /** Every group of up to three digits fits its width. */
  lemma DigitsFitWidth(s: string)
    requires IsNumeric(s) && |s| <= 3
    ensures DigitsValue(s) < Pow2(DigitsWidth(|s|))
  {
    assert Pow2(4) == 16 && Pow2(7) == 128 && Pow2(10) == 1024;
  }

  /** The 10 bits of the group of three digits that starts at digit 3j. */
  function Group(s: string, j: nat): (r: seq<bool>)
    requires IsNumeric(s) && 3 * j + 3 <= |s|
    ensures |r| == 10
  {
    BitsOf(DigitsValue(s[3 * j..3 * j + 3]), 10)
  }

  /** The 10-bit groups of the first k groups of three digits. */
  function NumericGroups(s: string, k: nat): (r: seq<bool>)
    requires IsNumeric(s) && 3 * k <= |s|
    ensures |r| == 10 * k
  {
    if k == 0 then [] else NumericGroups(s, k - 1) + Group(s, k - 1)
  }

  /** Numeric mode: the 10-bit groups of three digits, then 4 or 7 bits for one or two digits left over. */
  function NumericBits(s: string): (r: seq<bool>)
    requires IsNumeric(s)
    ensures |r| == PayloadBits(Numeric, |s|)
  {
    var k := |s| / 3;
    NumericGroups(s, k) + BitsOf(DigitsValue(s[3 * k..]), DigitsWidth(|s| % 3))
  }

  /** `45 * g[c1] + g[c2]`: the value of a pair of alphanumeric characters. */
  function PairValue(c1: char, c2: char): int {
    45 * AlnumValue(c1) + AlnumValue(c2)
  }

  /** The 11 bits of the pair of characters that starts at character 2j. */
  function Pair(s: string, j: nat): (r: seq<bool>)
    requires 2 * j + 2 <= |s|
    ensures |r| == 11
  {
    BitsOf(PairValue(s[2 * j], s[2 * j + 1]), 11)
  }

  /** The 11-bit values of the first k pairs of characters. */
  function AlnumPairs(s: string, k: nat): (r: seq<bool>)
    requires 2 * k <= |s|
    ensures |r| == 11 * k
  {
    if k == 0 then [] else AlnumPairs(s, k - 1) + Pair(s, k - 1)
  }

  /** Alphanumeric mode: 11 bits per pair of characters, then 6 bits for a character left over. */
  function AlnumBits(s: string): (r: seq<bool>)
    requires IsAlphanumeric(s)
    ensures |r| == PayloadBits(Alphanumeric, |s|)
  {
    var k := |s| / 2;
    AlnumPairs(s, k) + (if |s| % 2 == 1 then BitsOf(AlnumValue(s[|s| - 1]), 6) else [])
  }

  /** A pair of alphanumeric characters fits 11 bits and a single one 6. */
  lemma PairFits(c1: char, c2: char)
    requires IsAlnumChar(c1) && IsAlnumChar(c2)
    ensures 0 <= PairValue(c1, c2) < Pow2(11)
    ensures 0 <= AlnumValue(c1) < Pow2(6)
  {
    AlnumValueDefined(c1);
    AlnumValueDefined(c2);
    assert Pow2(6) == 64 && Pow2(11) == 2048;
  }

  /** The data the mode can encode: digits, the 45 alphanumeric characters, or bytes. */
  predicate Encodable(mode: Mode, data: Data) {
    match mode
    case Numeric => data.Chars? && IsNumeric(data.chars)
    case Alphanumeric => data.Chars? && IsAlphanumeric(data.chars)
    case Octet => data.Bytes? && forall i :: 0 <= i < |data.bytes| ==> 0 <= data.bytes[i] < 256
    case Kanji => false
  }

  /** The data part of a segment; octet mode writes each byte in 8 bits. */
  function Payload(mode: Mode, data: Data): (r: seq<bool>)
    requires Encodable(mode, data)
    ensures |r| == PayloadBits(mode, data.Length())
  {
    if mode == Numeric then NumericBits(data.chars)
    else if mode == Alphanumeric then AlnumBits(data.chars)
    else BytesBits(data.bytes)
  }

  /** `i(t, 4), i(f, w(r, t))` and the data: mode indicator, character count indicator and payload. */
  function SegmentBits(v: int, mode: Mode, data: Data): (r: seq<bool>)
    requires Encodable(mode, data)
    ensures |r| == 4 + CountWidth(v, mode) + PayloadBits(mode, data.Length())
  {
    BitsOf(mode.Indicator(), 4) + BitsOf(data.Length(), CountWidth(v, mode)) + Payload(mode, data)
  }

  /** The data fits version v at level e: its segment fits the data bits of the symbol. */
  predicate Fits(v: int, e: int, mode: Mode, data: Data) {
    1 <= v <= 40 && 0 <= e < 4 && Encodable(mode, data)
    && 4 + CountWidth(v, mode) + PayloadBits(mode, data.Length()) <= DataBits(v, e)
  }

  /** The data fits exactly when its length is within the capacity `b(v, mode, e)`. */
  lemma FitsIffCapacity(v: int, e: int, mode: Mode, data: Data)
    requires 1 <= v <= 40 && 0 <= e < 4 && Encodable(mode, data)
    ensures Fits(v, e, mode, data) <==> data.Length() <= Capacity(v, mode, e)
  {
    CapacityMeansFit(v, mode, e, data.Length());
  }

  /** `m(v, e) >> 3`: the number of data codewords of the symbol. */
  function Codewords(v: int, e: int): (r: nat)
    requires 1 <= v <= 40 && 0 <= e < 4
    ensures 8 * r == DataBits(v, e)
  {
    DataBitsBound(v, e);
    DataBitsWholeCodewords(v, e);
    DataBits(v, e) / 8
  }

  lemma Pow2CountWidths()
    ensures Pow2(8) == 256 && Pow2(9) == 512 && Pow2(10) == 1024 && Pow2(11) == 2048
    ensures Pow2(12) == 4096 && Pow2(13) == 8192 && Pow2(14) == 16384 && Pow2(16) == 65536
  {
    assert Pow2(8) == 256;
    assert Pow2(12) == 4096;
    assert Pow2(16) == 65536;
  }

  /** Data that fits has a segment within the symbol's codewords and a length the character count indicator can hold. */
  lemma CountFits(v: int, e: int, mode: Mode, data: Data)
    requires Fits(v, e, mode, data)
    ensures |SegmentBits(v, mode, data)| <= 8 * Codewords(v, e)
    ensures data.Length() < Pow2(CountWidth(v, mode))
  {
    DataBitsBound(v, e);
    Pow2CountWidths();
  }

  /** The pad codewords 236, 17, 236, ... (section 7.4.10 of ISO/IEC 18004). */
  function Pad(k: nat): (r: seq<int>)
    ensures |r| == k
    ensures forall i :: 0 <= i < k ==> r[i] == if i % 2 == 0 then 236 else 17
  {
    seq(k, i => if i % 2 == 0 then 236 else 17)
  }

  /** The terminator: four zero bits, cut short when fewer than four bits of the symbol remain. */
  function TerminatorWidth(room: int): (r: nat)
    ensures r <= 4
    ensures room >= 0 ==> r <= room
    ensures room >= 4 ==> r == 4
  {
    if room < 0 then 0 else if room < 4 then room else 4
  }

  /** Segment bits, a terminator of the given width, then zeros to the codeword boundary. */
  function Filled(seg: seq<bool>, term: nat): (r: seq<bool>)
    ensures |r| == |seg| + term + FillWidth(|seg| + term) && |r| % 8 == 0
  {
    var bits := seg + BitsOf(0, term);
    bits + BitsOf(0, FillWidth(|bits|))
  }

  /** The number of pad codewords that bring m codewords up to n; none when there are n already. */
  function PadCount(m: nat, n: nat): (r: nat)
    ensures m < n ==> m + r == n
    ensures m >= n ==> r == 0
  {
    if m < n then n - m else 0
  }

  /** The codewords of the filled bits, padded to n. */
  function Codify(seg: seq<bool>, term: nat, n: nat): seq<int>
  {
    var filled := Filled(seg, term);
    Unpack(filled) + Pad(PadCount(|filled| / 8, n))
  }

  /** The data codewords as the encoder writes them: a terminator of four bits whatever room is left. */
  function DataCodewordsAsWritten(v: int, mode: Mode, data: Data, n: nat): seq<int>
    requires Encodable(mode, data)
  {
    Codify(SegmentBits(v, mode, data), 4, n)
  }

  /** The data codewords with the terminator cut to the room left in the symbol. */
  function DataCodewords(v: int, mode: Mode, data: Data, n: nat): seq<int>
    requires Encodable(mode, data)
  {
    var seg := SegmentBits(v, mode, data);
    Codify(seg, TerminatorWidth(8 * n - |seg|), n)
  }

  lemma FilledParts(seg: seq<bool>, term: nat)
    ensures Filled(seg, term) == seg + BitsOf(0, term) + BitsOf(0, FillWidth(|seg| + term))
  {
  }

  /** Codify gives the codewords of the filled bits, then pads up to n codewords. */
  lemma CodifyShape(seg: seq<bool>, term: nat, n: nat)
    ensures var m := |Filled(seg, term)| / 8;
      && |Codify(seg, term, n)| == (if m < n then n else m)
      && (forall i :: m <= i < n ==> Codify(seg, term, n)[i] == if (i - m) % 2 == 0 then 236 else 17)
  {
  }

  /** The codewords are bytes. */
  lemma CodifyBytes(seg: seq<bool>, term: nat, n: nat)
    ensures forall i :: 0 <= i < |Codify(seg, term, n)| ==> 0 <= Codify(seg, term, n)[i] < 256
  {
    var filled := Filled(seg, term);
    var m := |filled| / 8;
    UnpackInRange(filled);
    InRangeConcat(Unpack(filled), Pad(PadCount(m, n)));
  }

  lemma InRangeConcat(x: seq<int>, y: seq<int>)
    requires forall i :: 0 <= i < |x| ==> 0 <= x[i] < 256
    requires forall i :: 0 <= i < |y| ==> 0 <= y[i] < 256
    ensures forall i :: 0 <= i < |x + y| ==> 0 <= (x + y)[i] < 256
  {
  }

  /** The bits of the codewords: the segment, the terminator, the zero fill, then the pad codewords. */
  lemma CodifyBits(seg: seq<bool>, term: nat, n: nat)
    ensures BytesBits(Codify(seg, term, n)) == Filled(seg, term) + BytesBits(Pad(PadCount(|Filled(seg, term)| / 8, n)))
  {
    var filled := Filled(seg, term);
    var pad := Pad(PadCount(|filled| / 8, n));
    CodifyParts(seg, term, n);
    UnpackBits(filled);
    BytesBitsAfter(Unpack(filled), pad, Codify(seg, term, n), filled);
  }

  lemma CodifyParts(seg: seq<bool>, term: nat, n: nat)
    ensures Codify(seg, term, n) == Unpack(Filled(seg, term)) + Pad(PadCount(|Filled(seg, term)| / 8, n))
  {
  }

  /** The bits of codewords x followed by codewords y, when x has the bits f. */
  lemma BytesBitsAfter(x: seq<int>, y: seq<int>, c: seq<int>, f: seq<bool>)
    requires c == x + y && BytesBits(x) == f
    ensures BytesBits(c) == f + BytesBits(y)
  {
    BytesBitsConcat(x, y);
  }

  /** The corrected data codewords are exactly the n codewords of the symbol, and bytes. */
  lemma DataCodewordsLength(v: int, mode: Mode, data: Data, n: nat)
    requires Encodable(mode, data) && |SegmentBits(v, mode, data)| <= 8 * n
    ensures |DataCodewords(v, mode, data, n)| == n
    ensures forall i :: 0 <= i < n ==> 0 <= DataCodewords(v, mode, data, n)[i] < 256
  {
    var seg := SegmentBits(v, mode, data);
    var term := TerminatorWidth(8 * n - |seg|);
    CodifyShape(seg, term, n);
    CodifyBytes(seg, term, n);
    WithinWholeCodewords(|seg| + term, n);
  }

  /** A bit count k within n codewords stays within them when rounded up to a whole codeword. */
  lemma WithinWholeCodewords(k: nat, n: nat)
    requires k <= 8 * n
    ensures (k + FillWidth(k)) / 8 <= n
  {
    var b := (k + FillWidth(k)) / 8;
    assert k + FillWidth(k) == 8 * b;
  }

  /**
   * The encoder as written emits the n codewords of the symbol when the
   * segment leaves room for the whole 4-bit terminator, and one codeword
   * more when it leaves fewer than 4 bits.
   */
  lemma AsWrittenLength(v: int, mode: Mode, data: Data, n: nat)
    requires Encodable(mode, data) && |SegmentBits(v, mode, data)| <= 8 * n
    ensures |DataCodewordsAsWritten(v, mode, data, n)|
      == if |SegmentBits(v, mode, data)| + 4 <= 8 * n then n else n + 1
  {
    var seg := SegmentBits(v, mode, data);
    CodifyShape(seg, 4, n);
    var k := |seg| + 4;
    if k <= 8 * n {
      WithinWholeCodewords(k, n);
    } else {
      FillPastBoundary(k, n);
    }
  }

  /** A bit count past n codewords but within one more rounds up to n + 1 codewords. */
  lemma FillPastBoundary(k: nat, n: nat)
    requires 8 * n < k <= 8 * n + 8
    ensures k + FillWidth(k) == 8 * (n + 1)
  {
    if k == 8 * n + 8 {
      FillWidthOf(n + 1, 0, k);
    } else {
      FillWidthOf(n, k - 8 * n, k);
    }
  }

  /** With room for the whole terminator, the encoder as written and the corrected one agree. */
  lemma AsWrittenAgrees(v: int, mode: Mode, data: Data, n: nat)
    requires Encodable(mode, data) && |SegmentBits(v, mode, data)| + 4 <= 8 * n
    ensures DataCodewordsAsWritten(v, mode, data, n) == DataCodewords(v, mode, data, n)
  {
    assert TerminatorWidth(8 * n - |SegmentBits(v, mode, data)|) == 4;
  }

  /** Version 1 at level L (index 1) has 152 data bits, 19 codewords, and 41 digits fit it. */
  lemma Version1L(s: string)
    requires IsNumeric(s) && |s| == 41
    ensures Codewords(1, 1) == 19
    ensures Fits(1, 1, Numeric, Chars(s))
  {
    assert DataBits(1, 1) == 152;
  }

  /**
   * 41 digits in the 19 codewords of version 1 at level L: their segment has
   * 151 bits of the 152, and the encoder as written emits 20 codewords where
   * the corrected one emits 19.
   */
  lemma TerminatorOverflow(s: string)
    requires IsNumeric(s) && |s| == 41
    ensures |SegmentBits(1, Numeric, Chars(s))| == 151
    ensures |DataCodewordsAsWritten(1, Numeric, Chars(s), 19)| == 20
    ensures |DataCodewords(1, Numeric, Chars(s), 19)| == 19
  {
    SegmentOf41(s);
    assert |DataCodewordsAsWritten(1, Numeric, Chars(s), 19)| == 20 by {
      AsWrittenLength(1, Numeric, Chars(s), 19);
    }
    assert |DataCodewords(1, Numeric, Chars(s), 19)| == 19 by {
      DataCodewordsLength(1, Numeric, Chars(s), 19);
    }
  }

  lemma SegmentOf41(s: string)
    requires IsNumeric(s) && |s| == 41
    ensures |SegmentBits(1, Numeric, Chars(s))| == 151
  {
    assert PayloadBits(Numeric, 41) == 137;
  }

  /** A numeral of k digits read from a group's bits; None when the value has more than k digits. */
  function DecodeDigits(bits: seq<bool>, k: nat): (r: Option<string>)
    ensures r.Some? ==> |r.value| == k && IsNumeric(r.value)
  {
    var v := BitsValue(bits);
    if v < Pow10(k) then Some(DigitsOf(v, k)) else None
  }

  /** Two decoded parts one after the other; None when either part failed. */
  function Join(x: Option<string>, y: Option<string>): Option<string> {
    if x.Some? && y.Some? then Some(x.value + y.value) else None
  }

  /** The numerals of consecutive 10-bit groups. */
  function DecodeGroups(bits: seq<bool>): Option<string>
    decreases |bits|
  {
    if |bits| < 10 then (if bits == [] then Some([]) else None)
    else Join(DecodeGroups(bits[..|bits| - 10]), DecodeDigits(bits[|bits| - 10..], 3))
  }

  /** Numeric payload of len digits: the 10-bit groups, then the group of the remaining digits. */
  function DecodeNumeric(bits: seq<bool>, len: nat): Option<string>
    requires |bits| == PayloadBits(Numeric, len)
  {
    var g := 10 * (len / 3);
    Join(DecodeGroups(bits[..g]), DecodeDigits(bits[g..], len % 3))
  }

  /** A group of up to three digits decodes back. */
  lemma DigitsDecode(s: string)
    requires IsNumeric(s) && |s| <= 3
    ensures DecodeDigits(BitsOf(DigitsValue(s), DigitsWidth(|s|)), |s|) == Some(s)
  {
    DigitsFitWidth(s);
    BitsRoundTrip(DigitsValue(s), DigitsWidth(|s|));
    DigitsRoundTrip(s);
  }

  /** The first k groups decode back to the first 3k digits. */
  lemma {:induction false} GroupsRoundTrip(s: string, k: nat)
    requires IsNumeric(s) && 3 * k <= |s|
    ensures DecodeGroups(NumericGroups(s, k)) == Some(s[..3 * k])
  {
    if k == 0 {
      assert s[..0] == [];
    } else {
      var j := k - 1;
      GroupsRoundTrip(s, j);
      GroupsStep(s, j, k);
    }
  }

  /** The bits of one group decode to its three digits. */
  lemma GroupDecode(s: string, j: nat)
    requires IsNumeric(s) && 3 * j + 3 <= |s|
    ensures DecodeDigits(Group(s, j), 3) == Some(s[3 * j..3 * j + 3])
  {
    DigitsDecode(s[3 * j..3 * j + 3]);
  }

  /** The bits of one pair decode to its two characters. */
  lemma PairOfDecode(s: string, j: nat)
    requires IsAlphanumeric(s) && 2 * j + 2 <= |s|
    ensures DecodePair(Pair(s, j)) == Some(s[2 * j..2 * j + 2])
  {
    var c1, c2 := s[2 * j], s[2 * j + 1];
    assert Pair(s, j) == BitsOf(PairValue(c1, c2), 11);
    assert DecodePair(BitsOf(PairValue(c1, c2), 11)) == Some([c1, c2]) by {
      PairDecode(c1, c2);
    }
    PairAt(s, 2 * j);
  }

  lemma GroupsUnfold(s: string, j: nat, k: nat)
    requires IsNumeric(s) && k == j + 1 && 3 * k <= |s|
    ensures NumericGroups(s, k) == NumericGroups(s, j) + Group(s, j)
  {
  }

  lemma PairsUnfold(s: string, j: nat, k: nat)
    requires k == j + 1 && 2 * k <= |s|
    ensures AlnumPairs(s, k) == AlnumPairs(s, j) + Pair(s, j)
  {
  }

  /** One more group decodes to three more digits. */
  lemma GroupsStep(s: string, j: nat, k: nat)
    requires IsNumeric(s) && k == j + 1 && 3 * k <= |s|
    requires DecodeGroups(NumericGroups(s, j)) == Some(s[..3 * j])
    ensures DecodeGroups(NumericGroups(s, k)) == Some(s[..3 * k])
  {
    GroupsUnfold(s, j, k);
    GroupDecode(s, j);
    GroupPrefix(s, j, k);
    GroupsAppend(NumericGroups(s, j), Group(s, j), NumericGroups(s, k), s[..3 * j], s[3 * j..3 * j + 3], s[..3 * k]);
  }

  /** The first 3k elements are the first 3j followed by the next three. */
  lemma GroupPrefix<T>(s: seq<T>, j: nat, k: nat)
    requires k == j + 1 && 3 * k <= |s|
    ensures s[..3 * j] + s[3 * j..3 * j + 3] == s[..3 * k]
  {
  }

  /** The first 2k elements are the first 2j followed by the next two. */
  lemma PairPrefix<T>(s: seq<T>, j: nat, k: nat)
    requires k == j + 1 && 2 * k <= |s|
    ensures s[..2 * j] + s[2 * j..2 * j + 2] == s[..2 * k]
  {
  }

  /** A prefix is a shorter prefix followed by the slice between them. */
  lemma Prefixes<T>(s: seq<T>, i: nat, j: nat)
    requires i <= j <= |s|
    ensures s[..i] + s[i..j] == s[..j]
  {
  }

  /** The two parts of a concatenation, cut at the length of the first. */
  lemma Rejoin<T>(s: seq<T>, k: nat)
    requires k <= |s|
    ensures s[..k] + s[k..] == s
  {
  }

  lemma LastTwo<T>(s: seq<T>)
    requires |s| >= 2
    ensures s[|s| - 2..] == [s[|s| - 2], s[|s| - 1]]
  {
  }

  lemma LastOne<T>(s: seq<T>)
    requires |s| >= 1
    ensures s[|s| - 1..] == [s[|s| - 1]]
  {
  }

  lemma Whole<T>(s: seq<T>, k: nat)
    requires k == |s|
    ensures s[..k] == s
  {
  }

  lemma NoneAfter<T>(s: seq<T>)
    ensures s + [] == s
  {
  }

  lemma Halves<T>(a: seq<T>, b: seq<T>)
    ensures (a + b)[..|a|] == a && (a + b)[|a|..] == b
  {
  }

  lemma PairAt<T>(s: seq<T>, i: nat)
    requires i + 2 <= |s|
    ensures s[i..i + 2] == [s[i], s[i + 1]]
  {
  }

  /** Appending the bits of one pair appends its two characters. */
  lemma PairsAppend(a: seq<bool>, b: seq<bool>, x: seq<bool>, p: string, q: string, t: string)
    requires x == a + b && |b| == 11 && DecodePairs(a) == Some(p) && DecodePair(b) == Some(q) && t == p + q
    ensures DecodePairs(x) == Some(t)
  {
    Halves(a, b);
  }

  /** Appending the bits of one group of three digits appends the digits. */
  lemma GroupsAppend(a: seq<bool>, b: seq<bool>, x: seq<bool>, p: string, q: string, t: string)
    requires x == a + b && |b| == 10 && DecodeGroups(a) == Some(p) && DecodeDigits(b, 3) == Some(q) && t == p + q
    ensures DecodeGroups(x) == Some(t)
  {
    Halves(a, b);
  }

  /** Numeric payload decodes back to the digits. */
  lemma NumericRoundTrip(s: string)
    requires IsNumeric(s)
    ensures DecodeNumeric(NumericBits(s), |s|) == Some(s)
  {
    var k := |s| / 3;
    var a := NumericGroups(s, k);
    var b := BitsOf(DigitsValue(s[3 * k..]), DigitsWidth(|s| % 3));
    var bits := NumericBits(s);
    assert bits[..|a|] == a && bits[|a|..] == b by {
      Halves(a, b);
    }
    assert DecodeGroups(a) == Some(s[..3 * k]) by {
      GroupsRoundTrip(s, k);
    }
    assert DecodeDigits(b, |s| % 3) == Some(s[3 * k..]) by {
      DigitsDecode(s[3 * k..]);
    }
    Rejoin(s, 3 * k);
  }

  /** The two characters of an 11-bit pair value, or None when its value is not below 45 * 45. */
  function DecodePair(bits: seq<bool>): (r: Option<string>)
    ensures r.Some? ==> |r.value| == 2 && IsAlphanumeric(r.value)
  {
    var v := BitsValue(bits);
    if v / 45 < 45 then Some([AlnumChar(v / 45), AlnumChar(v % 45)]) else None
  }

  /** The character of a 6-bit value, or None when it is not below 45. */
  function DecodeSingle(bits: seq<bool>): (r: Option<string>)
    ensures r.Some? ==> |r.value| == 1 && IsAlphanumeric(r.value)
  {
    var v := BitsValue(bits);
    if v < 45 then Some([AlnumChar(v)]) else None
  }

  /** The characters of consecutive 11-bit pairs. */
  function DecodePairs(bits: seq<bool>): Option<string>
    decreases |bits|
  {
    if |bits| < 11 then (if bits == [] then Some([]) else None)
    else Join(DecodePairs(bits[..|bits| - 11]), DecodePair(bits[|bits| - 11..]))
  }

  /** Alphanumeric payload of len characters: the pairs, then a single character when len is odd. */
  function DecodeAlnum(bits: seq<bool>, len: nat): Option<string>
    requires |bits| == PayloadBits(Alphanumeric, len)
  {
    var g := 11 * (len / 2);
    Join(DecodePairs(bits[..g]), if len % 2 == 1 then DecodeSingle(bits[g..]) else Some([]))
  }

  lemma PairDecode(c1: char, c2: char)
    requires IsAlnumChar(c1) && IsAlnumChar(c2)
    ensures DecodePair(BitsOf(PairValue(c1, c2), 11)) == Some([c1, c2])
    ensures DecodeSingle(BitsOf(AlnumValue(c1), 6)) == Some([c1])
  {
    PairFits(c1, c2);
    AlnumCharOfValue(c1);
    AlnumCharOfValue(c2);
    var v := PairValue(c1, c2);
    BitsRoundTrip(v, 11);
    BitsRoundTrip(AlnumValue(c1), 6);
    DivUnique(v, 45, AlnumValue(c1), AlnumValue(c2));
  }

  /** The first k pairs decode back to the first 2k characters. */
  lemma {:induction false} PairsRoundTrip(s: string, k: nat)
    requires IsAlphanumeric(s) && 2 * k <= |s|
    ensures DecodePairs(AlnumPairs(s, k)) == Some(s[..2 * k])
  {
    if k == 0 {
      assert s[..0] == [];
    } else {
      var j := k - 1;
      PairsRoundTrip(s, j);
      PairsStep(s, j, k);
    }
  }

  /** One more pair decodes to two more characters. */
  lemma PairsStep(s: string, j: nat, k: nat)
    requires IsAlphanumeric(s) && k == j + 1 && 2 * k <= |s|
    requires DecodePairs(AlnumPairs(s, j)) == Some(s[..2 * j])
    ensures DecodePairs(AlnumPairs(s, k)) == Some(s[..2 * k])
  {
    PairsUnfold(s, j, k);
    PairOfDecode(s, j);
    PairPrefix(s, j, k);
    PairsAppend(AlnumPairs(s, j), Pair(s, j), AlnumPairs(s, k), s[..2 * j], s[2 * j..2 * j + 2], s[..2 * k]);
  }

  /** Alphanumeric payload decodes back to the characters. */
  lemma AlnumRoundTrip(s: string)
    requires IsAlphanumeric(s)
    ensures DecodeAlnum(AlnumBits(s), |s|) == Some(s)
  {
    var k := |s| / 2;
    var a := AlnumPairs(s, k);
    var b := if |s| % 2 == 1 then BitsOf(AlnumValue(s[|s| - 1]), 6) else [];
    var bits := AlnumBits(s);
    assert bits[..|a|] == a && bits[|a|..] == b by {
      Halves(a, b);
    }
    var x := DecodePairs(bits[..|a|]);
    assert x == Some(s[..2 * k]) by {
      PairsRoundTrip(s, k);
    }
    var y := if |s| % 2 == 1 then DecodeSingle(bits[|a|..]) else Some([]);
    assert DecodeAlnum(bits, |s|) == Join(x, y);
    if |s| % 2 == 1 {
      assert y == Some([s[|s| - 1]]) by {
        PairDecode(s[|s| - 1], s[|s| - 1]);
      }
      assert s[..2 * k] + [s[|s| - 1]] == s by {
        Rejoin(s, 2 * k);
        LastOne(s);
      }
    } else {
      assert s[..2 * k] + [] == s by {
        Whole(s, 2 * k);
        NoneAfter(s[..2 * k]);
      }
    }
  }

  /** The mode of a 4-bit mode indicator; kanji and other indicators are not decoded. */
  function ModeOf(indicator: int): (r: Option<Mode>)
    ensures r.Some? ==> r.value.Indicator() == indicator && r.value != Kanji
  {
    if indicator == 1 then Some(Numeric)
    else if indicator == 2 then Some(Alphanumeric)
    else if indicator == 4 then Some(Octet)
    else None
  }

  /** The data of a payload of len characters in the mode. */
  function DecodePayload(mode: Mode, len: nat, bits: seq<bool>): Option<Data>
    requires |bits| == PayloadBits(mode, len)
  {
    match mode
    case Numeric => (match DecodeNumeric(bits, len) case Some(s) => Some(Chars(s)) case None => None)
    case Alphanumeric => (match DecodeAlnum(bits, len) case Some(s) => Some(Chars(s)) case None => None)
    case Octet => Some(Bytes(Unpack(bits)))
    case Kanji => None
  }

  /**
   * Reads a segment from the front of a bit string: the mode indicator, the
   * character count of the mode's width at version v, then the payload of
   * that many characters. None when the bits run out or do not decode.
   */
  function DecodeSegment(v: int, bits: seq<bool>): Option<(Mode, Data)> {
    if |bits| < 4 then None
    else match ModeOf(BitsValue(bits[..4]))
      case None => None
      case Some(mode) => DecodeCounted(mode, CountWidth(v, mode), bits[4..])
  }

  /** The rest of a segment after its mode indicator: a w-bit character count, then the payload. */
  function DecodeCounted(mode: Mode, w: nat, bits: seq<bool>): Option<(Mode, Data)> {
    if |bits| < w then None else DecodeSized(mode, BitsValue(bits[..w]), bits[w..])
  }

  /** The payload of len characters at the front of the bits. */
  function DecodeSized(mode: Mode, len: nat, bits: seq<bool>): Option<(Mode, Data)> {
    var p := PayloadBits(mode, len);
    if |bits| < p then None
    else match DecodePayload(mode, len, bits[..p])
      case None => None
      case Some(data) => Some((mode, data))
  }

  /** The payload of encodable data decodes back to the data. */
  lemma PayloadRoundTrip(mode: Mode, data: Data)
    requires Encodable(mode, data)
    ensures DecodePayload(mode, data.Length(), Payload(mode, data)) == Some(data)
  {
    match mode
    case Numeric => NumericRoundTrip(data.chars);
    case Alphanumeric => AlnumRoundTrip(data.chars);
    case Octet => UnpackBytesBits(data.bytes);
  }

  /** The mode indicator in front of the bits decodes to the mode. */
  lemma ModeStep(v: int, mode: Mode, a: seq<bool>, rest: seq<bool>, bits: seq<bool>)
    requires mode != Kanji && a == BitsOf(mode.Indicator(), 4) && bits == a + rest
    ensures DecodeSegment(v, bits) == DecodeCounted(mode, CountWidth(v, mode), rest)
  {
    assert Pow2(4) == 16;
    BitsRoundTrip(mode.Indicator(), 4);
    Halves(a, rest);
  }

  /** The character count in front of the bits decodes to the length. */
  lemma CountStep(mode: Mode, w: nat, len: nat, b: seq<bool>, rest: seq<bool>, bits: seq<bool>)
    requires len < Pow2(w) && b == BitsOf(len, w) && bits == b + rest
    ensures DecodeCounted(mode, w, bits) == DecodeSized(mode, len, rest)
  {
    BitsRoundTrip(len, w);
    Halves(b, rest);
  }

  /** The payload in front of the bits decodes to the data. */
  lemma PayloadStep(mode: Mode, data: Data, c: seq<bool>, rest: seq<bool>, bits: seq<bool>)
    requires Encodable(mode, data) && c == Payload(mode, data) && bits == c + rest
    ensures DecodeSized(mode, data.Length(), bits) == Some((mode, data))
  {
    PayloadRoundTrip(mode, data);
    Halves(c, rest);
  }

  /**
   * A segment decodes back to its mode and data whatever follows it, as long
   * as its length fits the character count indicator.
   */
  lemma SegmentRoundTrip(v: int, mode: Mode, data: Data, rest: seq<bool>, bits: seq<bool>)
    requires Encodable(mode, data) && data.Length() < Pow2(CountWidth(v, mode))
    requires bits == SegmentBits(v, mode, data) + rest
    ensures DecodeSegment(v, bits) == Some((mode, data))
  {
    var w := CountWidth(v, mode);
    var a := BitsOf(mode.Indicator(), 4);
    var b := BitsOf(data.Length(), w);
    var c := Payload(mode, data);
    SegmentParts(a, b, c, rest, bits);
    ModeStep(v, mode, a, b + (c + rest), bits);
    CountStep(mode, w, data.Length(), b, c + rest, b + (c + rest));
    PayloadStep(mode, data, c, rest, c + rest);
  }

  lemma PadRegroup(bits: seq<bool>, filled: seq<bool>, seg: seq<bool>, zeros: seq<bool>, fill: seq<bool>, pad: seq<bool>)
    requires bits == filled + pad && filled == seg + zeros + fill
    ensures bits == seg + (zeros + (fill + pad))
  {
  }

  lemma SegmentParts(a: seq<bool>, b: seq<bool>, c: seq<bool>, rest: seq<bool>, bits: seq<bool>)
    requires bits == a + b + c + rest
    ensures bits == a + (b + (c + rest))
  {
  }

  /** Codewords made from a segment read back as the segment, whatever the terminator width and the padding. */
  lemma CodifyDecode(v: int, mode: Mode, data: Data, term: nat, n: nat)
    requires Encodable(mode, data) && data.Length() < Pow2(CountWidth(v, mode))
    ensures DecodeSegment(v, BytesBits(Codify(SegmentBits(v, mode, data), term, n))) == Some((mode, data))
  {
    var seg := SegmentBits(v, mode, data);
    var filled := Filled(seg, term);
    var pad := BytesBits(Pad(PadCount(|filled| / 8, n)));
    var zeros := BitsOf(0, term);
    var fill := BitsOf(0, FillWidth(|seg| + term));
    var bits := BytesBits(Codify(seg, term, n));
    CodifyBits(seg, term, n);
    FilledParts(seg, term);
    PadRegroup(bits, filled, seg, zeros, fill, pad);
    SegmentRoundTrip(v, mode, data, zeros + (fill + pad), bits);
  }

  /** The corrected data codewords read back as the segment: the mode and the data are recovered. */
  lemma DataCodewordsDecode(v: int, mode: Mode, data: Data, n: nat)
    requires Encodable(mode, data) && data.Length() < Pow2(CountWidth(v, mode))
    ensures DecodeSegment(v, BytesBits(DataCodewords(v, mode, data, n))) == Some((mode, data))
  {
    var seg := SegmentBits(v, mode, data);
    CodifyDecode(v, mode, data, TerminatorWidth(8 * n - |seg|), n);
  }


}
