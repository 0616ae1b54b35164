/**
 * Format information placement (section 7.9 of ISO/IEC 18004) as
 * `M(r, t, e, n)` of main/static/js/qr-code.js writes it: the 15-bit word
 * for error correction level e and mask n goes twice into the symbol, bit u
 * into column 8 at row `[0,1,2,3,4,5,7,8,a-7,...,a-1][u]` and into row 8 at
 * column `[a-1,...,a-8,7,5,4,3,2,1,0][u]`, where a is the symbol's side.
 */
module QrFormat {
  import opened QrGrid
  import opened QrBch
  import opened QrMask

  /** Bit u of a format word. */
  predicate WordBit(w: bv32, u: nat)
    requires u < 15
  {
    (w >> u) & 1 == 1
  }

  /** The row of column 8 that receives bit u. */
  function FormatRow(a: int, u: int): (r: int)
    requires a >= 21 && 0 <= u < 15
    ensures 0 <= r < a && r != 6 && r != a - 8
  {
    if u < 6 then u else if u < 8 then u + 1 else a - 15 + u
  }

  /** The column of row 8 that receives bit u. */
  function FormatCol(a: int, u: int): (c: int)
    requires a >= 21 && 0 <= u < 15
    ensures 0 <= c < a && c != 6 && c != 8
  {
    if u < 8 then a - 1 - u else if u == 8 then 7 else 14 - u
  }

  /** Which bit, if any, the module in row r of column 8 holds; -1 for none. */
  function ColumnCopyIndex(a: int, r: int): int {
    if 0 <= r < 6 then r
    else if r == 7 || r == 8 then r - 1
    else if a - 7 <= r < a then r - a + 15
    else -1
  }

  /** Which bit, if any, the module in column c of row 8 holds; -1 for none. */
  function RowCopyIndex(a: int, c: int): int {
    if a - 8 <= c < a then a - 1 - c
    else if c == 7 then 8
    else if 0 <= c < 6 then 14 - c
    else -1
  }

  /** The modules that carry format information. */
  predicate IsFormatCell(a: int, r: int, c: int) {
    (c == 8 && ColumnCopyIndex(a, r) >= 0) || (r == 8 && RowCopyIndex(a, c) >= 0)
  }

  /** Each bit's two places are found again by the index functions. */
  lemma FormatPlaces(a: int, u: int)
    requires a >= 21 && 0 <= u < 15
    ensures ColumnCopyIndex(a, FormatRow(a, u)) == u
    ensures RowCopyIndex(a, FormatCol(a, u)) == u
  {
  }

  /** The grid g with the format word w written over both copies. */
  function WithFormat(g: Grid, w: bv32): (h: Grid)
    requires |g| >= 21 && Square(g, |g|)
    ensures Square(h, |g|)
    ensures forall r, c :: 0 <= r < |g| && 0 <= c < |g| && !IsFormatCell(|g|, r, c) ==> h[r][c] == g[r][c]
  {
    var a := |g|;
    seq(a, r requires 0 <= r < a => seq(a, c requires 0 <= c < a =>
      if c == 8 && 0 <= ColumnCopyIndex(a, r) < 15 then WordBit(w, ColumnCopyIndex(a, r))
      else if r == 8 && 0 <= RowCopyIndex(a, c) < 15 then WordBit(w, RowCopyIndex(a, c))
      else g[r][c]))
  }

  /** The word read back from column 8. */
  function ColumnCopy(g: Grid): (bits: seq<bool>)
    requires |g| >= 21 && Square(g, |g|)
    ensures |bits| == 15
  {
    seq(15, u requires 0 <= u < 15 => g[FormatRow(|g|, u)][8])
  }

  /** The word read back from row 8. */
  function RowCopy(g: Grid): (bits: seq<bool>)
    requires |g| >= 21 && Square(g, |g|)
    ensures |bits| == 15
  {
    seq(15, u requires 0 <= u < 15 => g[8][FormatCol(|g|, u)])
  }

  /** The 15 bits of a word, least significant first. */
  function WordBits(w: bv32): (bits: seq<bool>)
    ensures |bits| == 15
  {
    seq(15, u requires 0 <= u < 15 => WordBit(w, u))
  }

  /** Either copy of a written format word reads back as that word. */
  lemma {:induction false} FormatReadBack(g: Grid, w: bv32)
    requires |g| >= 21 && Square(g, |g|)
    ensures ColumnCopy(WithFormat(g, w)) == WordBits(w)
    ensures RowCopy(WithFormat(g, w)) == WordBits(w)
  {
    var a := |g|;
    var h := WithFormat(g, w);
    forall u | 0 <= u < 15
      ensures ColumnCopy(h)[u] == WordBit(w, u) && RowCopy(h)[u] == WordBit(w, u)
    {
      FormatPlaces(a, u);
    }
  }

  /** Writing a second word replaces the first entirely. */
  lemma {:induction false} FormatTwice(g: Grid, w1: bv32, w2: bv32)
    requires |g| >= 21 && Square(g, |g|)
    ensures WithFormat(WithFormat(g, w1), w2) == WithFormat(g, w2)
  {
    var a := |g|;
    var h1 := WithFormat(WithFormat(g, w1), w2);
    var h2 := WithFormat(g, w2);
    forall r, c | 0 <= r < a && 0 <= c < a
      ensures h1[r][c] == h2[r][c]
    {
    }
    GridEq(h1, h2, a);
  }

  /** When the format modules are reserved, masking and writing the format commute. */
  lemma {:induction false} MaskFormatCommute(g: Grid, res: Grid, k: int, w: bv32)
    requires 0 <= k < 8 && |g| >= 21
    requires Square(g, |g|) && Square(res, |g|)
    requires forall r, c :: 0 <= r < |g| && 0 <= c < |g| && IsFormatCell(|g|, r, c) ==> res[r][c]
    ensures Masked(WithFormat(g, w), res, k) == WithFormat(Masked(g, res, k), w)
  {
    var a := |g|;
    var h1 := Masked(WithFormat(g, w), res, k);
    var h2 := WithFormat(Masked(g, res, k), w);
    forall r, c | 0 <= r < a && 0 <= c < a
      ensures h1[r][c] == h2[r][c]
    {
    }
    GridEq(h1, h2, a);
  }

  /** Two 15-bit words with the same bits are the same word. */
  lemma WordBitsInjective(w1: bv32, w2: bv32)
    requires w1 < 0x8000 && w2 < 0x8000
    requires WordBits(w1) == WordBits(w2)
    ensures w1 == w2
  {
    var b1, b2 := WordBits(w1), WordBits(w2);
    assert b1[0] == b2[0] && b1[1] == b2[1] && b1[2] == b2[2] && b1[3] == b2[3] && b1[4] == b2[4];
    assert b1[5] == b2[5] && b1[6] == b2[6] && b1[7] == b2[7] && b1[8] == b2[8] && b1[9] == b2[9];
    assert b1[10] == b2[10] && b1[11] == b2[11] && b1[12] == b2[12] && b1[13] == b2[13] && b1[14] == b2[14];
  }

  /**
   * A symbol's format information determines the error correction level and
   * the mask: either copy, read back, tells any two choices apart.
   */
  lemma {:induction false} FormatIdentifies(g1: Grid, g2: Grid, e1: bv32, m1: bv32, e2: bv32, m2: bv32)
    requires e1 < 4 && m1 < 8 && e2 < 4 && m2 < 8
    requires |g1| >= 21 && Square(g1, |g1|) && |g2| >= 21 && Square(g2, |g2|)
    requires ColumnCopy(WithFormat(g1, FormatWord(e1, m1))) == ColumnCopy(WithFormat(g2, FormatWord(e2, m2)))
      || RowCopy(WithFormat(g1, FormatWord(e1, m1))) == RowCopy(WithFormat(g2, FormatWord(e2, m2)))
    ensures e1 == e2 && m1 == m2
  {
    FormatReadBack(g1, FormatWord(e1, m1));
    FormatReadBack(g2, FormatWord(e2, m2));
    FormatWordDecodes(e1, m1);
    FormatWordDecodes(e2, m2);
    WordBitsInjective(FormatWord(e1, m1), FormatWord(e2, m2));
    FormatWordInjective(e1, m1, e2, m2);
  }

  /** The module at (r, c) once bits 0 to u-1 of w are written over b, the module there before. */
  function PartlyWritten(a: int, w: bv32, u: int, b: bool, r: int, c: int): bool
    requires 0 <= u <= 15
  {
    if c == 8 && 0 <= ColumnCopyIndex(a, r) < u then WordBit(w, ColumnCopyIndex(a, r))
    else if r == 8 && 0 <= RowCopyIndex(a, c) < u then WordBit(w, RowCopyIndex(a, c))
    else b
  }

  /** Writing bit u changes its two places only. */
  lemma WriteStep(a: int, w: bv32, u: int, b: bool, r: int, c: int)
    requires a >= 21 && 0 <= u < 15
    ensures PartlyWritten(a, w, u + 1, b, r, c) ==
      if (r == 8 && c == FormatCol(a, u)) || (r == FormatRow(a, u) && c == 8) then WordBit(w, u)
      else PartlyWritten(a, w, u, b, r, c)
  {
    FormatPlaces(a, u);
  }

  /** `M(r, t, e, n)`: writes the format word for level ecc and mask into both copies of m. */
  method WriteFormat(m: array2<bool>, ecc: bv32, mask: bv32)
    requires ecc < 4 && mask < 8
    requires m.Length0 == m.Length1 >= 21
    modifies m
    ensures GridOf(m) == WithFormat(old(GridOf(m)), FormatWord(ecc, mask))
  {
    ghost var g := GridOf(m);
    var a := m.Length0;
    var o := FormatInfo(ecc, mask);
    for u := 0 to 15
      invariant forall r, c :: 0 <= r < a && 0 <= c < a ==> m[r, c] == PartlyWritten(a, o, u, g[r][c], r, c)
    {
      var f := FormatCol(a, u);
      var bit := WordBit(o, u);
      m[8, f] := bit;
      m[FormatRow(a, u), 8] := bit;
      forall r, c | 0 <= r < a && 0 <= c < a
        ensures m[r, c] == PartlyWritten(a, o, u + 1, g[r][c], r, c)
      {
        WriteStep(a, o, u, g[r][c], r, c);
      }
    }
    GridOfEq(m, WithFormat(g, o));
  }
}
