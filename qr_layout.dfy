/**
 * What the function patterns that `s(v)` of main/static/js/qr-code.js lays
 * out look like, module by module (section 6.3 of ISO/IEC 18004): finder
 * patterns with their separators, timing patterns, the dark module,
 * alignment patterns and the version information, all of them reserved, and
 * every format module reserved for `M`.
 */
module QrLayout {
  import opened QrGrid
  import opened QrCapacity
  import opened QrBch
  import opened QrFormat
  import opened QrMaskSearch
  import opened QrAlignment
  import opened QrPatterns

  function Abs(x: int): nat {
    if x < 0 then -x else x
  }

  /** The Chebyshev distance of an offset from the origin: the ring it lies on. */
  function Ring(dr: int, dc: int): nat {
    if Abs(dr) < Abs(dc) then Abs(dc) else Abs(dr)
  }

  /** A finder pattern, by offset from its centre: dark on rings 0, 1 and 3. */
  predicate FinderDark(dr: int, dc: int) {
    Ring(dr, dc) <= 3 && Ring(dr, dc) != 2
  }

  /** An alignment pattern, by offset from its centre: dark on rings 0 and 2. */
  predicate AlignmentDark(dr: int, dc: int) {
    Ring(dr, dc) != 1
  }

  /** Row of the centre of finder i of a side n symbol: top left, top right, bottom left. */
  function FinderRow(n: int, i: int): int {
    if i == 2 then n - 4 else 3
  }

  /** Column of the centre of finder i. */
  function FinderCol(n: int, i: int): int {
    if i == 1 then n - 4 else 3
  }

  /** The module (r, c) of the corner blocks: top left, then bottom left, then top right written over them. */
  predicate BlockCell(n: int, r: int, c: int, claim: bool) {
    StampCell(0, n - 8, Rows(TopRight, claim), 8, r, c,
      StampCell(n - 8, 0, Rows(BottomLeft, claim), 9, r, c,
        StampCell(0, 0, Rows(TopLeft, claim), 9, r, c, false)))
  }

  /** The corner blocks of a blank symbol, module by module. */
  lemma BlocksAt(n: nat, claim: bool, r: int, c: int)
    requires 0 <= r < n && 0 <= c < n
    ensures Blocks(Blank(n), claim)[r][c] == BlockCell(n, r, c, claim)
  {
  }

  /** The alignment pattern drawn at (al[u], al[l]) covers (r, c). */
  predicate InBox(al: seq<nat>, u: int, l: int, r: int, c: int)
    requires 0 <= u < |al| && 0 <= l < |al|
  {
    al[u] <= r < al[u] + 5 && al[l] <= c < al[l] + 5
  }

  /** The loop of `s(v)` draws a pattern at (al[u], al[l]): the three next to a finder are skipped. */
  predicate Drawn(al: seq<nat>, u: int, l: int) {
    0 <= u < |al| && AlignLo(u, |al|) <= l < AlignHi(u, |al|) && l < |al|
  }

  /** No pattern drawn along row u, up to column index l - 1, covers (r, c): the module is kept. */
  lemma {:induction false} AlignRowOutside(g: Grid, al: seq<nat>, u: int, l: int, rows: seq<bv16>, r: int, c: int)
    requires Square(g, |g|) && 0 <= u < |al| && l <= |al| && |rows| == 5
    requires 0 <= r < |g| && 0 <= c < |g|
    requires forall j :: AlignLo(u, |al|) <= j < l ==> !InBox(al, u, j, r, c)
    ensures AlignRow(g, al, u, l, rows)[r][c] == g[r][c]
    decreases l
  {
    if l > AlignLo(u, |al|) {
      assert !InBox(al, u, l - 1, r, c);
      AlignRowOutside(g, al, u, l - 1, rows, r, c);
    }
  }

  /** No pattern drawn in rows 0 to U - 1 covers (r, c): the module is kept. */
  lemma {:induction false} AlignRowsOutside(g: Grid, al: seq<nat>, uu: int, rows: seq<bv16>, r: int, c: int)
    requires Square(g, |g|) && 0 <= uu <= |al| && |rows| == 5
    requires 0 <= r < |g| && 0 <= c < |g|
    requires forall u, l :: u < uu && Drawn(al, u, l) ==> !InBox(al, u, l, r, c)
    ensures AlignRows(g, al, uu, rows)[r][c] == g[r][c]
    decreases uu
  {
    if uu > 0 {
      AlignRowsOutside(g, al, uu - 1, rows, r, c);
      var u := uu - 1;
      var h := AlignRows(g, al, u, rows);
      assert AlignRows(g, al, uu, rows) == AlignRow(h, al, u, AlignHi(u, |al|), rows);
      forall j | AlignLo(u, |al|) <= j < AlignHi(u, |al|)
        ensures !InBox(al, u, j, r, c)
      {
        assert Drawn(al, u, j);
      }
      AlignRowOutside(h, al, u, AlignHi(u, |al|), rows, r, c);
    }
  }

  /** Positions at least 12 apart: two patterns never overlap. */
  predicate Apart(al: seq<nat>) {
    forall j, k :: 0 <= j < k < |al| ==> al[j] + 12 <= al[k]
  }

  /** The pattern drawn at (al[u], al[l0]) covers (r, c): the module is that pattern's. */
  lemma {:induction false} AlignRowInside(g: Grid, al: seq<nat>, u: int, l: int, rows: seq<bv16>, r: int, c: int, l0: int)
    requires Square(g, |g|) && 0 <= u < |al| && l <= |al| && |rows| == 5 && Apart(al)
    requires 0 <= r < |g| && 0 <= c < |g|
    requires AlignLo(u, |al|) <= l0 < l && InBox(al, u, l0, r, c)
    ensures AlignRow(g, al, u, l, rows)[r][c] == RowBit(rows[r - al[u]], c - al[l0])
    decreases l
  {
    if l0 < l - 1 {
      assert al[l0] + 12 <= al[l - 1];
      AlignRowInside(g, al, u, l - 1, rows, r, c, l0);
    }
  }

  /** The pattern drawn at (al[u0], al[l0]) covers (r, c): after all rows up to U - 1 the module is that pattern's. */
  lemma {:induction false} AlignRowsInside(g: Grid, al: seq<nat>, uu: int, rows: seq<bv16>, r: int, c: int, u0: int, l0: int)
    requires Square(g, |g|) && 0 <= uu <= |al| && |rows| == 5 && Apart(al)
    requires 0 <= r < |g| && 0 <= c < |g|
    requires u0 < uu && Drawn(al, u0, l0) && InBox(al, u0, l0, r, c)
    ensures AlignRows(g, al, uu, rows)[r][c] == RowBit(rows[r - al[u0]], c - al[l0])
    decreases uu
  {
    var u := uu - 1;
    var h := AlignRows(g, al, u, rows);
    var last := AlignRow(h, al, u, AlignHi(u, |al|), rows);
    assert AlignRows(g, al, uu, rows) == last;
    var bit := RowBit(rows[r - al[u0]], c - al[l0]);
    if u0 == u {
      AlignRowInside(h, al, u0, AlignHi(u0, |al|), rows, r, c, l0);
      assert last[r][c] == bit;
    } else {
      AlignRowsInside(g, al, u, rows, r, c, u0, l0);
      assert al[u0] + 12 <= al[u];
      forall j | AlignLo(u, |al|) <= j < AlignHi(u, |al|)
        ensures !InBox(al, u, j, r, c)
      {
      }
      AlignRowOutside(h, al, u, AlignHi(u, |al|), rows, r, c);
      assert last[r][c] == h[r][c] == bit;
    }
  }

  /** The positions of version v are apart. */
  lemma PositionsApart(v: int)
    requires 1 <= v <= 40
    ensures Apart(Positions(v))
  {
    assert Shaped(Positions(v), Size(v));
  }

  /** (r, c) is a module of a version v symbol. */
  predicate InSymbol(v: int, r: int, c: int) {
    1 <= v <= 40 && 0 <= r < Size(v) && 0 <= c < Size(v)
  }

  /** Module (r, c) of the matrix, or with claim of the reserved flags, that `s(v)` returns. */
  function Module(v: int, claim: bool, r: int, c: int): bool
    requires InSymbol(v, r, c)
  {
    Layout(v, claim)[r][c]
  }

  /** No alignment pattern is drawn over (r, c). */
  ghost predicate Uncovered(v: int, r: int, c: int)
    requires 1 <= v <= 40
  {
    forall u, l :: Drawn(Positions(v), u, l) ==> !InBox(Positions(v), u, l, r, c)
  }

  /** (r, c) lies in neither version information area, or the symbol has none. */
  predicate OffVersion(v: int, r: int, c: int) {
    !(HasVersionInfo(v) && ((r < 6 && Size(v) - 11 <= c < Size(v) - 8) || (c < 6 && Size(v) - 11 <= r < Size(v) - 8)))
  }

  /** (r, c) is a module outside the alignment patterns and the version information. */
  ghost predicate Plain(v: int, r: int, c: int) {
    InSymbol(v, r, c) && OffVersion(v, r, c) && Uncovered(v, r, c)
  }

  /** (r, c) lies under the alignment pattern drawn at (al[u], al[l]). */
  ghost predicate Covered(v: int, r: int, c: int, u: int, l: int) {
    1 <= v <= 40 && Drawn(Positions(v), u, l) && InBox(Positions(v), u, l, r, c)
  }

  /** A plain module is what the corner blocks and then the timing loop left there. */
  lemma {:induction false} LayoutPlain(v: int, claim: bool, r: int, c: int)
    requires Plain(v, r, c)
    ensures Module(v, claim, r, c) == TimingCell(Size(v) - 8, r, c, BlockCell(Size(v), r, c, claim), claim)
  {
    var n, al := Size(v), Positions(v);
    var b := Blocks(Blank(n), claim);
    var t := Timing(b, n - 8, claim);
    var rows := Rows(Alignment, claim);
    FramedStages(v, claim, n, al, b, t, AlignRows(t, al, |al|, rows));
    BlocksAt(n, claim, r, c);
    AlignRowsOutside(t, al, |al|, rows, r, c);
  }

  /** A module under an alignment pattern is that pattern's, whatever was there before. */
  lemma {:induction false} LayoutCovered(v: int, claim: bool, r: int, c: int, u: int, l: int)
    requires Covered(v, r, c, u, l)
    ensures InSymbol(v, r, c)
    ensures Module(v, claim, r, c) == RowBit(Rows(Alignment, claim)[r - Positions(v)[u]], c - Positions(v)[l])
  {
    var n, al := Size(v), Positions(v);
    assert Shaped(al, n);
    var b := Blocks(Blank(n), claim);
    var t := Timing(b, n - 8, claim);
    var rows := Rows(Alignment, claim);
    FramedStages(v, claim, n, al, b, t, AlignRows(t, al, |al|, rows));
    PositionsApart(v);
    AlignRowsInside(t, al, |al|, rows, r, c, u, l);
  }

  /** The three 9 by 9 corners hold no alignment pattern and no version information. */
  lemma CornersClear(v: int, r: int, c: int)
    requires InSymbol(v, r, c)
    requires (r <= 8 && c <= 8) || (r <= 8 && c >= Size(v) - 8) || (r >= Size(v) - 8 && c <= 8)
    ensures Plain(v, r, c)
  {
    assert Shaped(Positions(v), Size(v));
  }

  /** The rows of the top left block are the finder pattern around (3, 3) and its separator. */
  lemma TopLeftFinder(f: int, i: int)
    requires 0 <= f < 8 && 0 <= i < 8
    ensures RowBit(TopLeft[f], i) == FinderDark(f - 3, i - 3)
  {
  }

  /** The top right block, from row 0 and column n - 8, around (3, n - 4). */
  lemma TopRightFinder(f: int, i: int)
    requires 0 <= f < 8 && 0 <= i < 8
    ensures RowBit(TopRight[f], i) == FinderDark(f - 3, i - 4)
  {
  }

  /** The bottom left block, from row n - 8, around (n - 4, 0). */
  lemma BottomLeftFinder(f: int, i: int)
    requires 0 <= f < 8 && 0 <= i < 8
    ensures RowBit(BottomLeft[f], i) == FinderDark(f - 4, i - 3)
  {
  }

  /** The rows of an alignment pattern. */
  lemma AlignmentRings(f: int, i: int)
    requires 0 <= f < 5 && 0 <= i < 5
    ensures RowBit(Alignment[f], i) == AlignmentDark(f - 2, i - 2)
  {
  }

  /**
   * The finder patterns: around the centre of each, rings 0, 1 and 3 are
   * dark and ring 2 is light; ring 4, the separator, is light wherever it
   * lies inside the symbol; and all of these modules are reserved (claim).
   */
  lemma {:induction false} FinderPatterns(v: int, claim: bool, i: int, r: int, c: int)
    requires InSymbol(v, r, c) && 0 <= i < 3
    requires Ring(r - FinderRow(Size(v), i), c - FinderCol(Size(v), i)) <= 4
    ensures Module(v, claim, r, c) == (claim || FinderDark(r - FinderRow(Size(v), i), c - FinderCol(Size(v), i)))
  {
    var n := Size(v);
    CornersClear(v, r, c);
    LayoutPlain(v, claim, r, c);
    if i == 0 {
      TopLeftFinder(r, c);
      FullBits(c);
    } else if i == 1 {
      TopRightFinder(r, c - (n - 8));
      FullBits(c - (n - 8));
    } else {
      BottomLeftFinder(r - (n - 8), c);
      FullBits(c);
    }
  }

  /** Where an alignment pattern crosses a timing pattern, its modules alternate in step with it. */
  lemma {:induction false} TimingInBox(al: seq<nat>, n: int, u: int, l: int, r: int, c: int)
    requires n >= 21 && Shaped(al, n) && Drawn(al, u, l) && InBox(al, u, l, r, c)
    requires r == 6 || c == 6
    ensures AlignmentDark(r - al[u] - 2, c - al[l] - 2) == ((r + c) % 2 == 0)
  {
    if r == 6 {
      assert u == 0 && al[u] == 4;
      assert al[l] % 2 == 0;
    } else {
      assert l == 0 && al[l] == 4;
      assert al[u] % 2 == 0;
    }
  }

  /** The timing modules outside the alignment patterns: the loop's `1 & ~u`, and the top left block at position 8. */
  lemma {:induction false} TimingOutside(n: int, r: int, c: int, claim: bool)
    requires n >= 21
    requires (r == 6 && 8 <= c <= n - 9) || (c == 6 && 8 <= r <= n - 9)
    ensures TimingCell(n - 8, r, c, BlockCell(n, r, c, claim), claim) == (claim || (r + c) % 2 == 0)
  {
    if r == 8 || c == 8 {
      FullBits(8);
      FullBits(6);
    }
  }

  /** (r, c) lies on a timing pattern: row or column 6, between the separators. */
  predicate OnTiming(v: int, r: int, c: int) {
    1 <= v <= 40 && ((r == 6 && 8 <= c <= Size(v) - 9) || (c == 6 && 8 <= r <= Size(v) - 9))
  }

  /** A timing module under an alignment pattern. */
  lemma {:induction false} TimingCovered(v: int, claim: bool, r: int, c: int, u: int, l: int)
    requires OnTiming(v, r, c) && Covered(v, r, c, u, l)
    ensures Module(v, claim, r, c) == (claim || (r + c) % 2 == 0)
  {
    var al := Positions(v);
    LayoutCovered(v, claim, r, c, u, l);
    TimingInBox(al, Size(v), u, l, r, c);
    AlignmentRings(r - al[u], c - al[l]);
    FullBits(c - al[l]);
  }

  /** A timing module outside the alignment patterns. */
  lemma {:induction false} TimingPlain(v: int, claim: bool, r: int, c: int)
    requires OnTiming(v, r, c) && Uncovered(v, r, c)
    ensures Module(v, claim, r, c) == (claim || (r + c) % 2 == 0)
  {
    LayoutPlain(v, claim, r, c);
    TimingOutside(Size(v), r, c, claim);
  }

  /**
   * The timing patterns: row 6 and column 6, between the separators, are
   * dark exactly at even positions, the alignment patterns they cross
   * included, and are reserved (claim).
   */
  lemma {:induction false} TimingModule(v: int, claim: bool, r: int, c: int)
    requires OnTiming(v, r, c)
    ensures Module(v, claim, r, c) == (claim || (r + c) % 2 == 0)
  {
    if exists u, l :: Covered(v, r, c, u, l) {
      var u, l :| Covered(v, r, c, u, l);
      TimingCovered(v, claim, r, c, u, l);
    } else {
      var al := Positions(v);
      forall u, l | Drawn(al, u, l)
        ensures !InBox(al, u, l, r, c)
      {
        assert !Covered(v, r, c, u, l);
      }
      TimingPlain(v, claim, r, c);
    }
  }

  /** The dark module at (n - 8, 8), next to the bottom left finder, is dark and reserved (claim). */
  lemma {:induction false} DarkModule(v: int, claim: bool)
    requires 1 <= v <= 40
    ensures Module(v, claim, Size(v) - 8, 8)
  {
    var r := Size(v) - 8;
    CornersClear(v, r, 8);
    LayoutPlain(v, claim, r, 8);
    FullBits(8);
  }

  /**
   * The alignment patterns: each one drawn is dark on rings 0 and 2 around
   * its centre (al[u] + 2, al[l] + 2), light on ring 1, and reserved (claim).
   */
  lemma {:induction false} AlignmentPatterns(v: int, claim: bool, u: int, l: int, r: int, c: int)
    requires Covered(v, r, c, u, l)
    ensures InSymbol(v, r, c)
    ensures Module(v, claim, r, c) == (claim || AlignmentDark(r - Positions(v)[u] - 2, c - Positions(v)[l] - 2))
  {
    var al := Positions(v);
    LayoutCovered(v, claim, r, c, u, l);
    AlignmentRings(r - al[u], c - al[l]);
    FullBits(c - al[l]);
  }

  /** The 18 bits of a version word, least significant first. */
  function VersionBits(word: bv32): (bits: seq<bool>)
    ensures |bits| == 18
  {
    seq(18, k requires 0 <= k < 18 => VersionBit(word, k))
  }

  /** The version word read back from the copy at the top right: bit k at (k / 3, n - 11 + k % 3). */
  function TopRightVersion(g: Grid): (bits: seq<bool>)
    requires |g| >= 21 && Square(g, |g|)
    ensures |bits| == 18
  {
    seq(18, k requires 0 <= k < 18 => g[k / 3][|g| - 11 + k % 3])
  }

  /** The version word read back from the copy at the bottom left: bit k at (n - 11 + k % 3, k / 3). */
  function BottomLeftVersion(g: Grid): (bits: seq<bool>)
    requires |g| >= 21 && Square(g, |g|)
    ensures |bits| == 18
  {
    seq(18, k requires 0 <= k < 18 => g[|g| - 11 + k % 3][k / 3])
  }

  /** Both copies of a written version word read back as that word. */
  lemma {:induction false} WithVersionReadBack(g: Grid, word: bv32)
    requires |g| >= 21 && Square(g, |g|)
    ensures TopRightVersion(WithVersion(g, word, 18, false)) == VersionBits(word)
    ensures BottomLeftVersion(WithVersion(g, word, 18, false)) == VersionBits(word)
  {
    var h, n := WithVersion(g, word, 18, false), |g|;
    forall k | 0 <= k < 18
      ensures h[k / 3][n - 11 + k % 3] == VersionBit(word, k)
      ensures h[n - 11 + k % 3][k / 3] == VersionBit(word, k)
    {
      assert 3 * (k / 3) + k % 3 == k;
    }
  }

  /** A symbol of version 7 or more, which carries version information. */
  predicate Versioned(v: int) {
    7 <= v <= 40
  }

  /** From version 7 both copies of the version information read back as the word of v. */
  lemma {:induction false} VersionReadBack(v: int)
    requires Versioned(v)
    ensures TopRightVersion(Layout(v, false)) == VersionBits(VersionWord(v))
    ensures BottomLeftVersion(Layout(v, false)) == VersionBits(VersionWord(v))
  {
    WithVersionReadBack(Framed(v, false), VersionWord(v));
  }

  /** Bit k of each copy of the version information is reserved. */
  lemma {:induction false} VersionReserved(v: int, k: int)
    requires Versioned(v) && 0 <= k < 18
    ensures Module(v, true, k / 3, Size(v) - 11 + k % 3) && Module(v, true, Size(v) - 11 + k % 3, k / 3)
  {
  }

  /** Two 18-bit words with the same bits are the same word. */
  lemma VersionBitsInjective(w1: bv32, w2: bv32)
    requires w1 < 0x40000 && w2 < 0x40000
    requires VersionBits(w1) == VersionBits(w2)
    ensures w1 == w2
  {
    var b1, b2 := VersionBits(w1), VersionBits(w2);
    assert b1[0] == b2[0] && b1[1] == b2[1] && b1[2] == b2[2] && b1[3] == b2[3] && b1[4] == b2[4] && b1[5] == b2[5];
    assert b1[6] == b2[6] && b1[7] == b2[7] && b1[8] == b2[8] && b1[9] == b2[9] && b1[10] == b2[10] && b1[11] == b2[11];
    assert b1[12] == b2[12] && b1[13] == b2[13] && b1[14] == b2[14] && b1[15] == b2[15] && b1[16] == b2[16] && b1[17] == b2[17];
  }

  /**
   * The version word tells the version: the 18 bits that either copy reads
   * back (VersionReadBack, where v1 and v2 are `v as bv32`) differ between
   * any two versions.
   */
  lemma {:induction false} VersionIdentifies(v1: bv32, v2: bv32)
    requires 7 <= v1 <= 40 && 7 <= v2 <= 40
    requires VersionBits(Code(v1, 6, 0x1F25, 12)) == VersionBits(Code(v2, 6, 0x1F25, 12))
    ensures v1 == v2
  {
    VersionWordDecodes(v1);
    VersionWordDecodes(v2);
    VersionBitsInjective(Code(v1, 6, 0x1F25, 12), Code(v2, 6, 0x1F25, 12));
  }

  /** A format module is reserved by the corner blocks and stays so. */
  lemma {:induction false} FormatModuleReserved(v: int, r: int, c: int)
    requires InSymbol(v, r, c) && IsFormatCell(Size(v), r, c)
    ensures Module(v, true, r, c)
  {
    var n := Size(v);
    CornersClear(v, r, c);
    LayoutPlain(v, true, r, c);
    if c >= n - 8 {
      FullBits(c - (n - 8));
    } else {
      FullBits(c);
    }
  }

  /** Every format module is reserved, as `M` and the masks need. */
  lemma {:induction false} FormatModulesReserved(v: int)
    requires 1 <= v <= 40
    ensures FormatReserved(Layout(v, true))
  {
    var n := Size(v);
    forall r, c | 0 <= r < n && 0 <= c < n && IsFormatCell(n, r, c)
      ensures Module(v, true, r, c)
    {
      FormatModuleReserved(v, r, c);
    }
  }
}
