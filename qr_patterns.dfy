/**
 * The function patterns of a symbol, as `s(v)` in main/static/js/qr-code.js
 * lays them out (section 6.3 of ISO/IEC 18004): three 9 by 9 (or 8 by 9)
 * blocks holding the finder patterns, their separators, the dark module and
 * room for the format information; the timing patterns on row and column 6;
 * the alignment patterns; and, from version 7, two copies of the version
 * information. Every module written is also marked reserved.
 *
 * The source builds the matrix and the reserved flags as arrays of initially
 * empty rows; a module never written reads as undefined, which every later
 * use treats as 0. Here both start as all-false `array2<bool>`.
 */
module QrPatterns {
  import opened QrGrid
  import opened QrCapacity
  import opened QrBch
  import opened QrFormat
  import opened QrMaskSearch
  import opened QrAlignment

  /** The side of a version v symbol, `4 * v + 17`. */
  function Size(v: int): int {
    4 * v + 17
  }

  /** Bit i of a block row, `u[f] >> i & 1`. */
  predicate RowBit(x: bv16, i: int)
    requires 0 <= i < 16
  {
    (x >> i) & 1 == 1
  }

  /** The block at the top left: finder, separator, and the format and timing modules next to them. */
  const TopLeft: seq<bv16> := [127, 65, 93, 93, 93, 65, 383, 0, 64]
  /** The block at the bottom left, starting with the row of the dark module. */
  const BottomLeft: seq<bv16> := [256, 127, 65, 93, 93, 93, 65, 127]
  /** The block at the top right. */
  const TopRight: seq<bv16> := [254, 130, 186, 186, 186, 130, 254, 0, 0]
  /** An alignment pattern. */
  const Alignment: seq<bv16> := [31, 17, 21, 17, 31]

  /** h rows of reserved flags (`o[..] = 1`) for blocks up to 9 modules wide. */
  function Full(h: int): (rows: seq<bv16>)
    requires h >= 0
    ensures |rows| == h && forall f :: 0 <= f < h ==> rows[f] == 0x1FF
  {
    seq(h, _ => 0x1FF)
  }

  /** The rows a block writes into the matrix, or into the reserved flags when claim holds. */
  function Rows(rows: seq<bv16>, claim: bool): (r: seq<bv16>)
    ensures |r| == |rows|
  {
    if claim then Full(|rows|) else rows
  }

  /** The module at (r, c) after block rows are written at (r0, c0), w wide, over b. */
  predicate StampCell(r0: int, c0: int, rows: seq<bv16>, w: int, r: int, c: int, b: bool)
    requires 0 <= w <= 16
  {
    if r0 <= r < r0 + |rows| && c0 <= c < c0 + w then RowBit(rows[r - r0], c - c0) else b
  }

  /** The grid g with block rows written at (r0, c0), w modules wide. */
  function Stamp(g: Grid, r0: int, c0: int, rows: seq<bv16>, w: int): (h: Grid)
    requires Square(g, |g|) && 0 <= w <= 16
    ensures Square(h, |g|)
    ensures forall r, c :: 0 <= r < |g| && 0 <= c < |g| ==> h[r][c] == StampCell(r0, c0, rows, w, r, c, g[r][c])
  {
    seq(|g|, r requires 0 <= r < |g| => seq(|g|, c requires 0 <= c < |g| => StampCell(r0, c0, rows, w, r, c, g[r][c])))
  }

  /** Writing one more block row extends the written rows by that row. */
  lemma StampStep(r0: int, c0: int, rows: seq<bv16>, w: int, f: int, r: int, c: int, b: bool)
    requires 0 <= w <= 16 && 0 <= f < |rows|
    ensures StampCell(r0, c0, rows[..f + 1], w, r, c, b) ==
      if r == r0 + f && c0 <= c < c0 + w then RowBit(rows[f], c - c0) else StampCell(r0, c0, rows[..f], w, r, c, b)
  {
  }

  /** Every bit below 9 of a reserved row is set. */
  lemma FullBits(i: int)
    requires 0 <= i < 9
    ensures RowBit(0x1FF, i)
  {
  }

  /** The inner loop of `f`: row r of a block, `a[r][c0 + i] = x >> i & 1` and `o[r][c0 + i] = 1` for i below w. */
  method WriteBlockRow(m: array2<bool>, res: array2<bool>, r: int, c0: int, w: int, x: bv16)
    requires m != res && m.Length0 == m.Length1 == res.Length0 == res.Length1
    requires 0 <= r < m.Length0 && 0 <= c0 && 0 <= w <= 9 && c0 + w <= m.Length0
    modifies m, res
    ensures forall i, j :: 0 <= i < m.Length0 && 0 <= j < m.Length0 ==>
      m[i, j] == (if i == r && c0 <= j < c0 + w then RowBit(x, j - c0) else old(m[i, j]))
    ensures forall i, j :: 0 <= i < m.Length0 && 0 <= j < m.Length0 ==>
      res[i, j] == ((i == r && c0 <= j < c0 + w) || old(res[i, j]))
  {
    for k := 0 to w
      invariant forall i, j :: 0 <= i < m.Length0 && 0 <= j < m.Length0 ==>
        m[i, j] == (if i == r && c0 <= j < c0 + k then RowBit(x, j - c0) else old(m[i, j]))
      invariant forall i, j :: 0 <= i < m.Length0 && 0 <= j < m.Length0 ==>
        res[i, j] == ((i == r && c0 <= j < c0 + k) || old(res[i, j]))
    {
      m[r, c0 + k] := RowBit(x, k);
      res[r, c0 + k] := true;
    }
  }

  /** `f(r0, c0, h, w, rows)`: writes a block into the matrix and reserves its modules. */
  method WriteBlock(m: array2<bool>, res: array2<bool>, r0: int, c0: int, w: int, rows: seq<bv16>)
    requires m != res && m.Length0 == m.Length1 == res.Length0 == res.Length1
    requires 0 <= r0 && r0 + |rows| <= m.Length0 && 0 <= c0 && 0 <= w <= 9 && c0 + w <= m.Length0
    modifies m, res
    ensures GridOf(m) == Stamp(old(GridOf(m)), r0, c0, rows, w)
    ensures GridOf(res) == Stamp(old(GridOf(res)), r0, c0, Full(|rows|), w)
  {
    ghost var g, q := GridOf(m), GridOf(res);
    var a := m.Length0;
    for f := 0 to |rows|
      invariant forall r, c :: 0 <= r < a && 0 <= c < a ==> m[r, c] == StampCell(r0, c0, rows[..f], w, r, c, g[r][c])
      invariant forall r, c :: 0 <= r < a && 0 <= c < a ==> res[r, c] == StampCell(r0, c0, Full(f), w, r, c, q[r][c])
    {
      WriteBlockRow(m, res, r0 + f, c0, w, rows[f]);
      forall r, c | 0 <= r < a && 0 <= c < a
        ensures m[r, c] == StampCell(r0, c0, rows[..f + 1], w, r, c, g[r][c])
        ensures res[r, c] == StampCell(r0, c0, Full(f + 1), w, r, c, q[r][c])
      {
        StampStep(r0, c0, rows, w, f, r, c, g[r][c]);
        StampStep(r0, c0, Full(|rows|), w, f, r, c, q[r][c]);
        assert Full(|rows|)[..f] == Full(f) && Full(|rows|)[..f + 1] == Full(f + 1);
        if r == r0 + f && c0 <= c < c0 + w {
          FullBits(c - c0);
        }
      }
    }
    assert rows[..|rows|] == rows;
    GridOfEq(m, Stamp(g, r0, c0, rows, w));
    GridOfEq(res, Stamp(q, r0, c0, Full(|rows|), w));
  }

  /**
   * The module at (r, c) once the timing loop has reached u over b: row 6
   * and column 6, from 9 up to u - 1, are dark at even positions
   * (`1 & ~u`); as reserved flags (claim) they are all set.
   */
  predicate TimingCell(u: int, r: int, c: int, b: bool, claim: bool) {
    if r == 6 && 9 <= c < u then claim || c % 2 == 0
    else if c == 6 && 9 <= r < u then claim || r % 2 == 0
    else b
  }

  /** The grid g with the timing modules from 9 to u - 1 written. */
  function Timing(g: Grid, u: int, claim: bool): (h: Grid)
    requires Square(g, |g|)
    ensures Square(h, |g|)
    ensures forall r, c :: 0 <= r < |g| && 0 <= c < |g| ==> h[r][c] == TimingCell(u, r, c, g[r][c], claim)
  {
    seq(|g|, r requires 0 <= r < |g| => seq(|g|, c requires 0 <= c < |g| => TimingCell(u, r, c, g[r][c], claim)))
  }

  /** The modules of m are those of g once the timing loop has reached u. */
  ghost predicate TimingWritten(m: array2<bool>, u: int, g: Grid, claim: bool)
    requires m.Length0 == m.Length1 && Square(g, m.Length0)
    reads m
  {
    forall r, c :: 0 <= r < m.Length0 && 0 <= c < m.Length0 ==> m[r, c] == TimingCell(u, r, c, g[r][c], claim)
  }

  /** One step of the timing loop: `a[6][u] = a[u][6] = 1 & ~u` and `o[6][u] = o[u][6] = 1`. */
  method WriteTimingPair(m: array2<bool>, res: array2<bool>, u: int, ghost g: Grid, ghost q: Grid)
    requires m != res && m.Length0 == m.Length1 == res.Length0 == res.Length1 && 9 <= u < m.Length0
    requires Square(g, m.Length0) && Square(q, m.Length0)
    requires TimingWritten(m, u, g, false) && TimingWritten(res, u, q, true)
    modifies m, res
    ensures TimingWritten(m, u + 1, g, false) && TimingWritten(res, u + 1, q, true)
  {
    m[6, u] := u % 2 == 0;
    m[u, 6] := u % 2 == 0;
    res[6, u] := true;
    res[u, 6] := true;
  }

  /** The timing loop, for u from 9 to n - 9. */
  method WriteTiming(m: array2<bool>, res: array2<bool>)
    requires m != res && m.Length0 == m.Length1 == res.Length0 == res.Length1 >= 17
    modifies m, res
    ensures GridOf(m) == Timing(old(GridOf(m)), m.Length0 - 8, false)
    ensures GridOf(res) == Timing(old(GridOf(res)), m.Length0 - 8, true)
  {
    ghost var g, q := GridOf(m), GridOf(res);
    var n := m.Length0;
    for u := 9 to n - 8
      invariant TimingWritten(m, u, g, false) && TimingWritten(res, u, q, true)
    {
      WriteTimingPair(m, res, u, g, q);
    }
    GridOfEq(m, Timing(g, n - 8, false));
    GridOfEq(res, Timing(q, n - 8, true));
  }

  /** The first column index of row u of the alignment loop: the corners next to finders are skipped. */
  function AlignLo(u: int, s: int): int {
    if u == 0 || u == s - 1 then 1 else 0
  }

  /** One past the last column index of row u of the alignment loop. */
  function AlignHi(u: int, s: int): int {
    if u == 0 then s - 1 else s
  }

  /** The grid g with the alignment patterns of row u written, columns AlignLo(u) to l - 1. */
  function AlignRow(g: Grid, al: seq<nat>, u: int, l: int, rows: seq<bv16>): (h: Grid)
    requires Square(g, |g|) && 0 <= u < |al| && l <= |al|
    ensures Square(h, |g|)
    decreases l
  {
    if l <= AlignLo(u, |al|) then g else Stamp(AlignRow(g, al, u, l - 1, rows), al[u], al[l - 1], rows, 5)
  }

  /** The grid g with the alignment patterns of rows 0 to u - 1 written. */
  function AlignRows(g: Grid, al: seq<nat>, u: int, rows: seq<bv16>): (h: Grid)
    requires Square(g, |g|) && 0 <= u <= |al|
    ensures Square(h, |g|)
    decreases u
  {
    if u == 0 then g else AlignRow(AlignRows(g, al, u - 1, rows), al, u - 1, AlignHi(u - 1, |al|), rows)
  }

  /** Every alignment pattern fits inside a symbol of side n. */
  predicate AlignFits(al: seq<nat>, n: int) {
    forall k :: 0 <= k < |al| ==> al[k] + 5 <= n
  }

  /** Row u of the alignment loop: `f(i[u], i[l], 5, 5, [31, 17, 21, 17, 31])` for l from AlignLo to AlignHi - 1. */
  method WriteAlignmentRow(m: array2<bool>, res: array2<bool>, al: seq<nat>, u: int)
    requires m != res && m.Length0 == m.Length1 == res.Length0 == res.Length1
    requires 0 <= u < |al| && AlignFits(al, m.Length0)
    modifies m, res
    ensures GridOf(m) == AlignRow(old(GridOf(m)), al, u, AlignHi(u, |al|), Alignment)
    ensures GridOf(res) == AlignRow(old(GridOf(res)), al, u, AlignHi(u, |al|), Full(5))
  {
    ghost var g, q := GridOf(m), GridOf(res);
    var s := |al|;
    var h := if u == 0 then s - 1 else s;
    var l := if u == 0 || u == s - 1 then 1 else 0;
    while l < h
      invariant AlignLo(u, s) <= l && (l <= h || l == AlignLo(u, s))
      invariant GridOf(m) == AlignRow(g, al, u, l, Alignment)
      invariant GridOf(res) == AlignRow(q, al, u, l, Full(5))
    {
      WriteBlock(m, res, al[u], al[l], 5, Alignment);
      l := l + 1;
    }
  }

  /** The alignment loop over rows u of the pattern positions `i = e[2]`. */
  method WriteAlignment(m: array2<bool>, res: array2<bool>, al: seq<nat>)
    requires m != res && m.Length0 == m.Length1 == res.Length0 == res.Length1
    requires AlignFits(al, m.Length0)
    modifies m, res
    ensures GridOf(m) == AlignRows(old(GridOf(m)), al, |al|, Alignment)
    ensures GridOf(res) == AlignRows(old(GridOf(res)), al, |al|, Full(5))
  {
    ghost var g, q := GridOf(m), GridOf(res);
    for u := 0 to |al|
      invariant GridOf(m) == AlignRows(g, al, u, Alignment)
      invariant GridOf(res) == AlignRows(q, al, u, Full(5))
    {
      WriteAlignmentRow(m, res, al, u);
    }
  }

  /** The 18-bit version information word of version v, `y(v, 6, 7973, 12)`. */
  function VersionWord(v: int): bv32
    requires 7 <= v <= 40
  {
    Code(v as bv32, 6, 0x1F25, 12)
  }

  /** Bit k of a version information word. */
  predicate VersionBit(word: bv32, k: int)
    requires 0 <= k < 18
  {
    (word >> k) & 1 == 1
  }

  /**
   * The module at (r, c) once bits 0 to k - 1 of the version word are
   * written over b: bit `3 * u + l` goes to (u, n - 11 + l) and to
   * (n - 11 + l, u); as reserved flags (claim) those modules are set.
   */
  predicate VersionCell(n: int, word: bv32, k: int, r: int, c: int, b: bool, claim: bool)
    requires n >= 17
  {
    if 0 <= r < 6 && n - 11 <= c < n - 8 && 3 * r + (c - (n - 11)) < k then claim || VersionBit(word, 3 * r + (c - (n - 11)))
    else if 0 <= c < 6 && n - 11 <= r < n - 8 && 3 * c + (r - (n - 11)) < k then claim || VersionBit(word, 3 * c + (r - (n - 11)))
    else b
  }

  /** The grid g with version word bits 0 to k - 1 written. */
  function WithVersion(g: Grid, word: bv32, k: int, claim: bool): (h: Grid)
    requires Square(g, |g|) && |g| >= 17
    ensures Square(h, |g|)
    ensures forall r, c :: 0 <= r < |g| && 0 <= c < |g| ==> h[r][c] == VersionCell(|g|, word, k, r, c, g[r][c], claim)
  {
    seq(|g|, r requires 0 <= r < |g| => seq(|g|, c requires 0 <= c < |g| => VersionCell(|g|, word, k, r, c, g[r][c], claim)))
  }

  /** Writing bit 3u + l changes its two modules only. */
  lemma VersionStep(n: int, word: bv32, u: int, l: int, r: int, c: int, b: bool, claim: bool)
    requires n >= 21 && 0 <= u < 6 && 0 <= l < 3
    ensures VersionCell(n, word, 3 * u + l + 1, r, c, b, claim) ==
      if (r == u && c == n - 11 + l) || (r == n - 11 + l && c == u) then claim || VersionBit(word, 3 * u + l)
      else VersionCell(n, word, 3 * u + l, r, c, b, claim)
  {
  }

  /** The modules of m are those of g with version word bits 0 to k - 1 written. */
  ghost predicate VersionWritten(m: array2<bool>, word: bv32, k: int, g: Grid, claim: bool)
    requires m.Length0 == m.Length1 >= 21 && Square(g, m.Length0)
    reads m
  {
    forall r, c :: 0 <= r < m.Length0 && 0 <= c < m.Length0 ==> m[r, c] == VersionCell(m.Length0, word, k, r, c, g[r][c], claim)
  }

  /** Bit 3u + l into one matrix: `a[u][n - 11 + l] = a[n - 11 + l][u] = bit`, or 1 into the reserved flags. */
  method WriteVersionBit(m: array2<bool>, word: bv32, u: int, l: int, ghost g: Grid, claim: bool)
    requires m.Length0 == m.Length1 >= 21 && 0 <= u < 6 && 0 <= l < 3 && Square(g, m.Length0)
    requires VersionWritten(m, word, 3 * u + l, g, claim)
    modifies m
    ensures VersionWritten(m, word, 3 * u + l + 1, g, claim)
  {
    var n := m.Length0;
    var bit := claim || VersionBit(word, 3 * u + l);
    m[u, n - 11 + l] := bit;
    m[n - 11 + l, u] := bit;
    forall r, c | 0 <= r < n && 0 <= c < n
      ensures m[r, c] == VersionCell(n, word, 3 * u + l + 1, r, c, g[r][c], claim)
    {
      VersionStep(n, word, u, l, r, c, g[r][c], claim);
    }
  }

  /** One row u of the version loop: bits 3u, 3u + 1 and 3u + 2 into both copies. */
  method WriteVersionRow(m: array2<bool>, res: array2<bool>, word: bv32, u: int, ghost g: Grid, ghost q: Grid)
    requires m != res && m.Length0 == m.Length1 == res.Length0 == res.Length1 >= 21 && 0 <= u < 6
    requires Square(g, m.Length0) && Square(q, m.Length0)
    requires VersionWritten(m, word, 3 * u, g, false) && VersionWritten(res, word, 3 * u, q, true)
    modifies m, res
    ensures VersionWritten(m, word, 3 * u + 3, g, false) && VersionWritten(res, word, 3 * u + 3, q, true)
  {
    for l := 0 to 3
      invariant VersionWritten(m, word, 3 * u + l, g, false) && VersionWritten(res, word, 3 * u + l, q, true)
    {
      WriteVersionBit(m, word, u, l, g, false);
      WriteVersionBit(res, word, u, l, q, true);
    }
  }

  /** The loop over u that writes all 18 bits of a version word into both matrices. */
  method WriteVersionWord(m: array2<bool>, res: array2<bool>, word: bv32)
    requires m != res && m.Length0 == m.Length1 == res.Length0 == res.Length1 >= 21
    modifies m, res
    ensures GridOf(m) == WithVersion(old(GridOf(m)), word, 18, false)
    ensures GridOf(res) == WithVersion(old(GridOf(res)), word, 18, true)
  {
    ghost var g, q := GridOf(m), GridOf(res);
    for u := 0 to 6
      invariant VersionWritten(m, word, 3 * u, g, false) && VersionWritten(res, word, 3 * u, q, true)
    {
      WriteVersionRow(m, res, word, u, g, q);
    }
    GridOfEq(m, WithVersion(g, word, 18, false));
    GridOfEq(res, WithVersion(q, word, 18, true));
  }

  /** The version step of the function-pattern writer: `c = y(v, 6, 7973, 12)`, then its bits. */
  method WriteVersion(m: array2<bool>, res: array2<bool>, v: int)
    requires 7 <= v <= 40
    requires m != res && m.Length0 == m.Length1 == res.Length0 == res.Length1 == Size(v)
    modifies m, res
    ensures GridOf(m) == WithVersion(old(GridOf(m)), VersionWord(v), 18, false)
    ensures GridOf(res) == WithVersion(old(GridOf(res)), VersionWord(v), 18, true)
  {
    var word := VersionInfo(v as bv32);
    WriteVersionWord(m, res, word);
  }

  /** A symbol of side n with nothing written. */
  function Blank(n: nat): (g: Grid)
    ensures Square(g, n) && forall r, c :: 0 <= r < n && 0 <= c < n ==> !g[r][c]
  {
    seq(n, _ => seq(n, _ => false))
  }

  /** The grid g with the three corner blocks written (or, with claim, reserved). */
  function Blocks(g: Grid, claim: bool): (h: Grid)
    requires Square(g, |g|)
    ensures Square(h, |g|)
  {
    var n := |g|;
    Stamp(Stamp(Stamp(g, 0, 0, Rows(TopLeft, claim), 9), n - 8, 0, Rows(BottomLeft, claim), 9), 0, n - 8, Rows(TopRight, claim), 8)
  }

  /** The blocks, timing and alignment patterns of version v, before any version information. */
  function Framed(v: int, claim: bool): (g: Grid)
    requires 1 <= v <= 40
    ensures Square(g, Size(v))
  {
    var al := Positions(v);
    AlignRows(Timing(Blocks(Blank(Size(v)), claim), Size(v) - 8, claim), al, |al|, Rows(Alignment, claim))
  }

  /** Framed spelled out stage by stage. */
  lemma FramedStages(v: int, claim: bool, n: int, al: seq<nat>, b: Grid, t: Grid, a: Grid)
    requires 1 <= v <= 40 && n == Size(v) && al == Positions(v)
    requires b == Blocks(Blank(n), claim) && t == Timing(b, n - 8, claim)
    requires a == AlignRows(t, al, |al|, Rows(Alignment, claim))
    ensures a == Framed(v, claim)
  {
  }

  /**
   * The function patterns of version v in the order `s(v)` writes them:
   * blocks, timing, alignment patterns and version information. With claim
   * the result is the reserved flags, otherwise the matrix.
   */
  function Layout(v: int, claim: bool): (g: Grid)
    requires 1 <= v <= 40
    ensures Square(g, Size(v))
  {
    if HasVersionInfo(v) then WithVersion(Framed(v, claim), VersionWord(v), 18, claim) else Framed(v, claim)
  }

  /** The three calls of `f` that write the corner blocks. */
  method WriteBlocks(m: array2<bool>, res: array2<bool>)
    requires m != res && m.Length0 == m.Length1 == res.Length0 == res.Length1 >= 21
    modifies m, res
    ensures GridOf(m) == Blocks(old(GridOf(m)), false)
    ensures GridOf(res) == Blocks(old(GridOf(res)), true)
  {
    var n := m.Length0;
    WriteBlock(m, res, 0, 0, 9, TopLeft);
    WriteBlock(m, res, n - 8, 0, 9, BottomLeft);
    WriteBlock(m, res, 0, n - 8, 8, TopRight);
  }

  /** The first part of `s(v)`: fresh matrices with the blocks, timing and alignment patterns. */
  method FramedPatterns(v: int) returns (m: array2<bool>, res: array2<bool>)
    requires 1 <= v <= 40
    ensures fresh(m) && fresh(res) && m != res
    ensures m.Length0 == m.Length1 == res.Length0 == res.Length1 == Size(v)
    ensures GridOf(m) == Framed(v, false) && GridOf(res) == Framed(v, true)
  {
    var n := Size(v);
    m := new bool[n, n]((r, c) => false);
    res := new bool[n, n]((r, c) => false);
    GridOfEq(m, Blank(n));
    GridOfEq(res, Blank(n));
    WriteBlocks(m, res);
    ghost var b, bq := GridOf(m), GridOf(res);
    assert b == Blocks(Blank(n), false) && bq == Blocks(Blank(n), true);
    WriteTiming(m, res);
    ghost var t, tq := GridOf(m), GridOf(res);
    assert t == Timing(b, n - 8, false) && tq == Timing(bq, n - 8, true);
    var al := Positions(v);
    WriteAlignment(m, res, al);
    assert Rows(Alignment, false) == Alignment && Rows(Alignment, true) == Full(|Alignment|) == Full(5);
    assert GridOf(m) == AlignRows(t, al, |al|, Rows(Alignment, false));
    assert GridOf(res) == AlignRows(tq, al, |al|, Rows(Alignment, true));
    FramedStages(v, false, n, al, b, t, GridOf(m));
    FramedStages(v, true, n, al, bq, tq, GridOf(res));
  }

  /** `s(v)`: the matrix and the reserved flags of a version v symbol before any data is placed. */
  method FunctionPatterns(v: int) returns (m: array2<bool>, res: array2<bool>)
    requires 1 <= v <= 40
    ensures fresh(m) && fresh(res) && m != res
    ensures m.Length0 == m.Length1 == res.Length0 == res.Length1 == Size(v)
    ensures GridOf(m) == Layout(v, false) && GridOf(res) == Layout(v, true)
  {
    m, res := FramedPatterns(v);
    if v > 6 {
      WriteVersion(m, res, v);
    }
  }
}
