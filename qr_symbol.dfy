/**
 * `L(t, e, n, a, o)` of main/static/js/qr-code.js: the data codewords of a
 * segment, split into blocks with their Reed-Solomon codewords and
 * interleaved, placed in the zigzag order over the function patterns of the
 * version, then masked (with the asked for mask, or the first of least
 * penalty) and given format information.
 *
 * Beside the pipeline sits a reader for the finished symbol: the level and
 * mask from the format information, the codewords from the unmasked data
 * modules, the data codewords from their interleaving and the segment from
 * its bits. Reading the symbol the pipeline writes gives back its mode and
 * data.
 */
module QrSymbol {
  import opened Wrappers
  import opened QrCodewords
  import opened QrGrid
  import opened QrBits
  import opened QrBch
  import opened QrCapacity
  import opened QrModes
  import opened QrEncoder
  import opened QrEncodeData
  import opened QrField
  import opened QrInterleave
  import opened QrFormat
  import opened QrMask
  import opened QrMaskSearch
  import opened QrPatterns
  import opened QrAlignment
  import opened QrLayout
  import opened QrPlacement

  /** Every level of every version has at least one block and at most 30 error correction codewords per block. */
  lemma RowShape(v: int, e: int)
    requires 1 <= v <= 40 && 0 <= e < 4
    ensures 1 <= Row(v).blocks.At(e) && Row(v).ecWords.At(e) <= 30
  {
  }

  /** The generator polynomials the script builds when it loads: one of each degree up to 30, in log form. */
  ghost predicate Generators(exp: seq<bv8>, log: seq<int>, gens: seq<seq<int>>)
  {
    |log| == 256 && |gens| == 31 && gens[0] == []
    && (forall u :: 0 <= u < 31 ==> |gens[u]| == u && LogForm(gens[u]))
    && (forall u :: 0 <= u < 30 ==> gens[u + 1] == GenNext(exp, log, gens[u], u))
  }

  /** The data codewords of the segment, as many as the version and level hold. */
  function DataBytes(v: int, e: int, mode: Mode, data: Data): (b: seq<bv8>)
    requires Fits(v, e, mode, data)
    ensures |b| == Codewords(v, e)
    ensures Values(b) == DataCodewords(v, mode, data, Codewords(v, e))
  {
    CountFits(v, e, mode, data);
    DataCodewordsLength(v, mode, data, Codewords(v, e));
    ValuesOfBytes(DataCodewords(v, mode, data, Codewords(v, e)));
    AsBytes(DataCodewords(v, mode, data, Codewords(v, e)))
  }

  lemma NatProduct(a: nat, b: nat)
    ensures 0 <= a * b
  {
  }

  /** The number of codewords of the symbol: data codewords and the error correction codewords of every block. */
  function TotalCodewords(v: int, e: int): (r: nat)
    requires 1 <= v <= 40 && 0 <= e < 4
    ensures Codewords(v, e) <= r
  {
    var t, ec := Row(v).blocks.At(e), Row(v).ecWords.At(e);
    NatProduct(t, ec);
    Codewords(v, e) + t * ec
  }

  /** The codeword stream of the symbol: the data blocks and their error correction blocks, interleaved. */
  function Stream(exp: seq<bv8>, log: seq<int>, gens: seq<seq<int>>, v: int, e: int, mode: Mode, data: Data): (s: seq<bv8>)
    requires Generators(exp, log, gens) && Fits(v, e, mode, data)
    ensures |s| == TotalCodewords(v, e)
  {
    RowShape(v, e);
    var t, ec := Row(v).blocks.At(e), Row(v).ecWords.At(e);
    var d := DataBytes(v, e, mode, data);
    Interleaved(d, t, BlockEcc(exp, log, d, t, gens[ec]), ec)
  }

  /** The side of every symbol is odd and at least 21. */
  lemma SizeOdd(v: int)
    requires 1 <= v <= 40
    ensures Size(v) >= 21 && Size(v) % 2 == 1
  {
    assert Size(v) == 2 * (2 * v + 8) + 1;
  }

  /** The placement order of a version v symbol. */
  function Zigzag(v: int): (ord: seq<Cell>)
    requires 1 <= v <= 40
    ensures Within(ord, Size(v))
  {
    SizeOdd(v);
    Order(Size(v))
  }

  /** The symbol of version v before masking: stream st placed over the function patterns. */
  function PlacedSymbol(v: int, st: seq<bv8>): (g: Grid)
    requires 1 <= v <= 40
    ensures Square(g, Size(v))
  {
    Placed(Layout(v, false), Layout(v, true), st, Zigzag(v))
  }

  /** The finished symbol of version v and level e carrying stream st, with mask k and its format information. */
  function SymbolOf(v: int, e: int, st: seq<bv8>, k: int): (g: Grid)
    requires 1 <= v <= 40 && 0 <= e < 4 && 0 <= k < 8
    ensures Square(g, Size(v))
  {
    Candidate(PlacedSymbol(v, st), Layout(v, true), e, k)
  }

  /**
   * `L(t, e, n, a, o)`: encodes the data codewords, adds and interleaves the
   * error correction codewords, lays out the function patterns, places the
   * stream, and masks with o, or with the first mask of least penalty when
   * o is -1; chosen is the mask used.
   */
  method EncodeSymbol(exp: seq<bv8>, log: seq<int>, gens: seq<seq<int>>, data: Data, v: int, mode: Mode, e: int, mask: int)
    returns (m: array2<bool>, ghost chosen: int)
    requires Tables(exp, log) && Generators(exp, log, gens)
    requires Fits(v, e, mode, data) && -1 <= mask < 8
    ensures fresh(m) && m.Length0 == m.Length1 == Size(v)
    ensures 0 <= chosen < 8 && (mask >= 0 ==> chosen == mask)
    ensures mask < 0 ==> FirstBest(Scores(PlacedSymbol(v, Stream(exp, log, gens, v, e, mode, data)), Layout(v, true), e), chosen)
    ensures GridOf(m) == SymbolOf(v, e, Stream(exp, log, gens, v, e, mode, data), chosen)
  {
    RowShape(v, e);
    CountFits(v, e, mode, data);
    var n := Codewords(v, e);
    var cw := EncodeData(v, mode, data, n);
    DataCodewordsLength(v, mode, data, n);
    var t, ec := Row(v).blocks.At(e), Row(v).ecWords.At(e);
    var s := InterleaveBlocks(exp, log, AsBytes(cw), t, gens[ec]);
    assert s == Stream(exp, log, gens, v, e, mode, data);
    var res;
    m, res := FunctionPatterns(v);
    SizeOdd(v);
    PlaceData(m, res, s);
    FormatModulesReserved(v);
    var k := FinishSymbol(m, res, e, mask);
    chosen := k;
  }

  /** The format bits of every level and mask: level j / 8 and mask j % 8 at index j. */
  function FormatTable(): (t: seq<seq<bool>>)
    ensures |t| == 32
  {
    seq(32, j requires 0 <= j < 32 => WordBits(Word(j / 8, j % 8)))
  }

  /** The first level and mask, from index j of table t on, whose format bits are bits. */
  function FormatFrom(t: seq<seq<bool>>, bits: seq<bool>, j: nat): (r: Option<(int, int)>)
    requires |t| == 32
    ensures r.Some? ==> 0 <= r.value.0 < 4 && 0 <= r.value.1 < 8
    decreases 32 - j
  {
    if j >= 32 then None
    else if t[j] == bits then Some((j / 8, j % 8))
    else FormatFrom(t, bits, j + 1)
  }

  /** The level and mask a reader takes from 15 format bits: the first whose format word they are. */
  function FormatOf(bits: seq<bool>): Option<(int, int)>
  {
    FormatFrom(FormatTable(), bits, 0)
  }

  /** Different levels or masks have different format bits. */
  lemma WordsDiffer(e1: int, k1: int, e2: int, k2: int)
    requires 0 <= e1 < 4 && 0 <= k1 < 8 && 0 <= e2 < 4 && 0 <= k2 < 8
    requires WordBits(Word(e1, k1)) == WordBits(Word(e2, k2))
    ensures e1 == e2 && k1 == k2
  {
    FormatWordDecodes(e1 as bv32, k1 as bv32);
    FormatWordDecodes(e2 as bv32, k2 as bv32);
    WordBitsInjective(Word(e1, k1), Word(e2, k2));
    assert e1 as bv32 == e2 as bv32 && k1 as bv32 == k2 as bv32;
    SmallCast(e1, e2);
    SmallCast(k1, k2);
  }

  /** Small numbers with the same bit-vector are the same number. */
  lemma SmallCast(a: int, b: int)
    requires 0 <= a < 8 && 0 <= b < 8 && a as bv32 == b as bv32
    ensures a == b
  {
    CastBack(a);
    CastBack(b);
  }

  /** A small number survives the round trip through a bit-vector. */
  lemma CastBack(a: int)
    requires 0 <= a < 8
    ensures (a as bv32) as int == a
  {
  }

  /** Bits first found at index 8e + k of the table are found, from any index up to there, as level e and mask k. */
  lemma {:induction false} FormatFound(t: seq<seq<bool>>, bits: seq<bool>, e: int, k: int, j: nat)
    requires |t| == 32 && 0 <= e < 4 && 0 <= k < 8 && j <= 8 * e + k
    requires t[8 * e + k] == bits && forall i :: 0 <= i < 8 * e + k ==> t[i] != bits
    ensures FormatFrom(t, bits, j) == Some((e, k))
    decreases 8 * e + k - j
  {
    if j == 8 * e + k {
      assert j / 8 == e && j % 8 == k;
    } else {
      FormatFound(t, bits, e, k, j + 1);
    }
  }

  /** The format bits of level e and mask k read as level e and mask k. */
  lemma {:induction false} FormatOfWord(e: int, k: int)
    requires 0 <= e < 4 && 0 <= k < 8
    ensures FormatOf(WordBits(Word(e, k))) == Some((e, k))
  {
    var t, bits := FormatTable(), WordBits(Word(e, k));
    forall i | 0 <= i < 8 * e + k
      ensures t[i] != bits
    {
      if t[i] == bits {
        WordsDiffer(i / 8, i % 8, e, k);
      }
    }
    assert (8 * e + k) / 8 == e && (8 * e + k) % 8 == k;
    FormatFound(t, bits, e, k, 0);
  }

  /** The bytes a reader takes from the first 8 * count collected bits, eight bits to a byte. */
  function ReadBytes(bits: seq<bool>, count: nat): (b: seq<bv8>)
    requires 8 * count <= |bits|
    ensures |b| == count
  {
    seq(count, i requires 0 <= i < count => Byte(bits[8 * i .. 8 * i + 8]))
  }

  /**
   * A reader of a version v symbol: the level and mask from the format
   * information of column 8, the codewords from the unmasked modules in the
   * zigzag order, the data codewords from their interleaving, and the
   * segment from its bits.
   */
  function ReadSymbol(g: Grid, v: int): Option<(Mode, Data)>
    requires 1 <= v <= 40 && Square(g, Size(v))
  {
    match FormatOf(ColumnCopy(g))
    case None => None
    case Some((e, k)) =>
    var res := Layout(v, true);
    var bits := Collect(Masked(g, res, k), res, Zigzag(v));
    RowShape(v, e);
    if |bits| < 8 * TotalCodewords(v, e) then None
    else
      var s := ReadBytes(bits, TotalCodewords(v, e));
      DecodeSegment(v, BytesBits(Values(Deinterleave(s, Codewords(v, e), Row(v).blocks.At(e)))))
  }

  /** The unreserved modules of the symbol outside column 6 hold all of its codewords. */
  ghost predicate Room(v: int, e: int)
    requires 1 <= v <= 40 && 0 <= e < 4
  {
    8 * TotalCodewords(v, e) <= Count(Layout(v, true), Zigzag(v))
  }

  /** The finished symbol carries the format word of its level and mask in both copies, and reads as that level and mask. */
  lemma SymbolFormat(v: int, e: int, st: seq<bv8>, k: int)
    requires 1 <= v <= 40 && 0 <= e < 4 && 0 <= k < 8
    ensures ColumnCopy(SymbolOf(v, e, st, k)) == WordBits(Word(e, k))
    ensures RowCopy(SymbolOf(v, e, st, k)) == WordBits(Word(e, k))
    ensures FormatOf(ColumnCopy(SymbolOf(v, e, st, k))) == Some((e, k))
  {
    FormatReadBack(Masked(PlacedSymbol(v, st), Layout(v, true), k), Word(e, k));
    FormatOfWord(e, k);
  }

  /** Unmasking the finished symbol gives back the placed modules on every unreserved cell. */
  lemma {:induction false} UnmaskedBits(v: int, e: int, st: seq<bv8>, k: int)
    requires 1 <= v <= 40 && 0 <= e < 4 && 0 <= k < 8
    ensures Collect(Masked(SymbolOf(v, e, st, k), Layout(v, true), k), Layout(v, true), Zigzag(v))
         == Collect(PlacedSymbol(v, st), Layout(v, true), Zigzag(v))
  {
    var g, res, n := PlacedSymbol(v, st), Layout(v, true), Size(v);
    FormatModulesReserved(v);
    Trial(g, res, e, k, Word(e, k));
    CollectFrame(WithFormat(g, Word(e, k)), g, res, Zigzag(v));
  }

  /** Every byte placed along an order of distinct cells reads back from the collected modules, when its free modules hold it all. */
  lemma {:induction false} PlacedBytesRead(g: Grid, res: Grid, st: seq<bv8>, ord: seq<Cell>)
    requires Square(g, |g|) && Square(res, |g|) && Within(ord, |g|) && Distinct(ord)
    requires 8 * |st| <= Count(res, ord)
    ensures ReadBytes(Collect(Placed(g, res, st, ord), res, ord), |st|) == st
  {
    var bits := Collect(Placed(g, res, st, ord), res, ord);
    forall i | 0 <= i < |st|
      ensures ReadBytes(bits, |st|)[i] == st[i]
    {
      BytesReadBack(g, res, st, ord, i);
    }
  }

  /** Every byte of the stream reads back from the unmasked symbol, when the unreserved modules hold it all. */
  lemma {:induction false} StreamReadBack(v: int, e: int, st: seq<bv8>, k: int)
    requires 1 <= v <= 40 && 0 <= e < 4 && 0 <= k < 8
    requires 8 * |st| <= Count(Layout(v, true), Zigzag(v))
    ensures ReadBytes(Collect(Masked(SymbolOf(v, e, st, k), Layout(v, true), k), Layout(v, true), Zigzag(v)), |st|) == st
  {
    UnmaskedBits(v, e, st, k);
    SizeOdd(v);
    OrderCovers(Size(v), 0, 0);
    PlacedBytesRead(Layout(v, false), Layout(v, true), st, Zigzag(v));
  }

  /**
   * Round trip: reading the symbol that `L` writes, with any mask, gives
   * back the mode and the data, when the unreserved modules hold all the
   * codewords.
   */
  lemma {:induction false} SymbolDecodes(exp: seq<bv8>, log: seq<int>, gens: seq<seq<int>>, v: int, e: int, mode: Mode, data: Data, k: int)
    requires Generators(exp, log, gens) && Fits(v, e, mode, data) && 0 <= k < 8 && Room(v, e)
    ensures ReadSymbol(SymbolOf(v, e, Stream(exp, log, gens, v, e, mode, data), k), v) == Some((mode, data))
  {
    var st := Stream(exp, log, gens, v, e, mode, data);
    SymbolFormat(v, e, st, k);
    StreamReadBack(v, e, st, k);
    RowShape(v, e);
    var t, ec := Row(v).blocks.At(e), Row(v).ecWords.At(e);
    var d := DataBytes(v, e, mode, data);
    DeinterleaveRoundTrip(d, t, BlockEcc(exp, log, d, t, gens[ec]), ec);
    CountFits(v, e, mode, data);
    DataCodewordsDecode(v, mode, data, Codewords(v, e));
  }

  /** A reserved module outside the format information keeps its function pattern value through placement, masking and format. */
  lemma {:induction false} SymbolKeeps(v: int, e: int, st: seq<bv8>, k: int, r: int, c: int)
    requires 0 <= e < 4 && 0 <= k < 8
    requires InSymbol(v, r, c) && Module(v, true, r, c) && !IsFormatCell(Size(v), r, c)
    ensures SymbolOf(v, e, st, k)[r][c] == Module(v, false, r, c)
  {
    SizeOdd(v);
    PlacementKeeps(Layout(v, false), Layout(v, true), st, r, c);
  }

  /** The finder patterns and their separators survive in the finished symbol. */
  lemma {:induction false} SymbolFinders(v: int, e: int, st: seq<bv8>, k: int, i: int, r: int, c: int)
    requires 0 <= e < 4 && 0 <= k < 8
    requires InSymbol(v, r, c) && 0 <= i < 3
    requires Ring(r - FinderRow(Size(v), i), c - FinderCol(Size(v), i)) <= 4
    ensures SymbolOf(v, e, st, k)[r][c] == FinderDark(r - FinderRow(Size(v), i), c - FinderCol(Size(v), i))
  {
    FinderPatterns(v, true, i, r, c);
    FinderPatterns(v, false, i, r, c);
    SymbolKeeps(v, e, st, k, r, c);
  }

  /** The timing patterns survive in the finished symbol: dark exactly at even positions. */
  lemma {:induction false} SymbolTiming(v: int, e: int, st: seq<bv8>, k: int, r: int, c: int)
    requires 0 <= e < 4 && 0 <= k < 8
    requires OnTiming(v, r, c)
    ensures SymbolOf(v, e, st, k)[r][c] == ((r + c) % 2 == 0)
  {
    TimingModule(v, true, r, c);
    TimingModule(v, false, r, c);
    SymbolKeeps(v, e, st, k, r, c);
  }

  /** No drawn alignment pattern reaches a format information module. */
  lemma BoxOffFormat(al: seq<nat>, n: int, u: int, l: int, r: int, c: int)
    requires Shaped(al, n) && Drawn(al, u, l) && InBox(al, u, l, r, c)
    ensures !IsFormatCell(n, r, c)
  {
    if c == 8 {
      assert l == 0;
      assert 0 < u < |al| - 1;
      assert 16 <= al[u] <= n - 21;
    }
    if r == 8 {
      assert u == 0;
      assert 0 < l < |al| - 1;
      assert 16 <= al[l] <= n - 21;
    }
  }

  /** The alignment patterns survive in the finished symbol. */
  lemma {:induction false} SymbolAlignment(v: int, e: int, st: seq<bv8>, k: int, u: int, l: int, r: int, c: int)
    requires 0 <= e < 4 && 0 <= k < 8
    requires Covered(v, r, c, u, l)
    ensures InSymbol(v, r, c)
    ensures SymbolOf(v, e, st, k)[r][c] == AlignmentDark(r - Positions(v)[u] - 2, c - Positions(v)[l] - 2)
  {
    AlignmentPatterns(v, true, u, l, r, c);
    AlignmentPatterns(v, false, u, l, r, c);
    BoxOffFormat(Positions(v), Size(v), u, l, r, c);
    SymbolKeeps(v, e, st, k, r, c);
  }

  /** The dark module survives in the finished symbol. */
  lemma {:induction false} SymbolDarkModule(v: int, e: int, st: seq<bv8>, k: int)
    requires 1 <= v <= 40 && 0 <= e < 4 && 0 <= k < 8
    ensures SymbolOf(v, e, st, k)[Size(v) - 8][8]
  {
    DarkModule(v, true);
    DarkModule(v, false);
    SymbolKeeps(v, e, st, k, Size(v) - 8, 8);
  }

  /** Every reserved module of g outside the format information holds its function pattern value. */
  ghost predicate KeepsPatterns(g: Grid, v: int)
    requires 1 <= v <= 40 && Square(g, Size(v))
  {
    forall r, c :: InSymbol(v, r, c) && Module(v, true, r, c) && !IsFormatCell(Size(v), r, c) ==> g[r][c] == Module(v, false, r, c)
  }

  /** The finished symbol keeps every function pattern outside the format information. */
  lemma {:induction false} SymbolKeepsPatterns(v: int, e: int, st: seq<bv8>, k: int)
    requires 1 <= v <= 40 && 0 <= e < 4 && 0 <= k < 8
    ensures KeepsPatterns(SymbolOf(v, e, st, k), v)
  {
    forall r, c | InSymbol(v, r, c) && Module(v, true, r, c) && !IsFormatCell(Size(v), r, c)
      ensures SymbolOf(v, e, st, k)[r][c] == Module(v, false, r, c)
    {
      SymbolKeeps(v, e, st, k, r, c);
    }
  }

  /** The two modules of bit j of the version information in a symbol that keeps its function patterns are those of the layout. */
  lemma {:induction false} KeptVersionCells(g: Grid, v: int, j: int)
    requires Versioned(v) && Square(g, Size(v)) && KeepsPatterns(g, v) && 0 <= j < 18
    ensures g[j / 3][Size(v) - 11 + j % 3] == Module(v, false, j / 3, Size(v) - 11 + j % 3)
    ensures g[Size(v) - 11 + j % 3][j / 3] == Module(v, false, Size(v) - 11 + j % 3, j / 3)
  {
    var n := Size(v);
    VersionReserved(v, j);
    assert !IsFormatCell(n, j / 3, n - 11 + j % 3);
    assert !IsFormatCell(n, n - 11 + j % 3, j / 3);
  }

  /** Two grids agreeing on the two modules of bit j read bit j of the version information alike. */
  lemma VersionBitsAgree(g: Grid, l: Grid, n: int, j: int)
    requires n == |g| >= 21 && Square(g, n) && Square(l, n) && 0 <= j < 18
    requires g[j / 3][n - 11 + j % 3] == l[j / 3][n - 11 + j % 3]
    requires g[n - 11 + j % 3][j / 3] == l[n - 11 + j % 3][j / 3]
    ensures TopRightVersion(g)[j] == TopRightVersion(l)[j] && BottomLeftVersion(g)[j] == BottomLeftVersion(l)[j]
  {
  }

  /** Bit j of either version copy of a symbol that keeps its function patterns is that of the layout. */
  lemma {:induction false} KeptVersionModule(g: Grid, v: int, j: int)
    requires Versioned(v) && Square(g, Size(v)) && KeepsPatterns(g, v) && 0 <= j < 18
    ensures TopRightVersion(g)[j] == TopRightVersion(Layout(v, false))[j]
    ensures BottomLeftVersion(g)[j] == BottomLeftVersion(Layout(v, false))[j]
  {
    KeptVersionCells(g, v, j);
    VersionBitsAgree(g, Layout(v, false), Size(v), j);
  }

  /** A symbol that keeps its function patterns reads back the version information of v. */
  lemma {:induction false} KeptVersion(g: Grid, v: int)
    requires Versioned(v) && Square(g, Size(v)) && KeepsPatterns(g, v)
    ensures TopRightVersion(g) == VersionBits(VersionWord(v))
    ensures BottomLeftVersion(g) == VersionBits(VersionWord(v))
  {
    var l := Layout(v, false);
    forall j | 0 <= j < 18
      ensures TopRightVersion(g)[j] == TopRightVersion(l)[j] && BottomLeftVersion(g)[j] == BottomLeftVersion(l)[j]
    {
      KeptVersionModule(g, v, j);
    }
    assert TopRightVersion(g) == TopRightVersion(l) && BottomLeftVersion(g) == BottomLeftVersion(l);
    VersionReadBack(v);
  }

  /** From version 7 both copies of the version information survive in the finished symbol. */
  lemma {:induction false} SymbolVersion(v: int, e: int, st: seq<bv8>, k: int)
    requires Versioned(v) && 0 <= e < 4 && 0 <= k < 8
    ensures TopRightVersion(SymbolOf(v, e, st, k)) == VersionBits(VersionWord(v))
    ensures BottomLeftVersion(SymbolOf(v, e, st, k)) == VersionBits(VersionWord(v))
  {
    SymbolKeepsPatterns(v, e, st, k);
    KeptVersion(SymbolOf(v, e, st, k), v);
  }
}
