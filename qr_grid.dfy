/**
 * The symbol matrix of main/static/js/qr-code.js. The source keeps it as an
 * array of row arrays holding 0 (light) and 1 (dark), next to a second such
 * array that marks the reserved (function pattern) modules. Here both are
 * `array2<bool>`; `GridOf` reads one as a value so that contracts can speak
 * of whole matrices.
 */
module QrGrid {
  /** A matrix of modules by row and column; true is dark (1), false light (0). */
  type Grid = seq<seq<bool>>

  /** Every row of g has n modules and there are n rows. */
  ghost predicate Square(g: Grid, n: int) {
    |g| == n && forall r :: 0 <= r < n ==> |g[r]| == n
  }

  /** The contents of a matrix held in an array. */
  ghost function GridOf(m: array2<bool>): (g: Grid)
    reads m
    ensures |g| == m.Length0
    ensures forall r :: 0 <= r < m.Length0 ==> |g[r]| == m.Length1
    ensures m.Length0 == m.Length1 ==> Square(g, m.Length0)
  {
    seq(m.Length0, r reads m requires 0 <= r < m.Length0 =>
      seq(m.Length1, c reads m requires 0 <= c < m.Length1 => m[r, c]))
  }

  /** A cell of `GridOf(m)` is the array's module. */
  lemma CellOf(m: array2<bool>, r: int, c: int)
    requires 0 <= r < m.Length0 && 0 <= c < m.Length1
    ensures GridOf(m)[r][c] == m[r, c]
  {
  }

  /** Two square grids of one size with the same modules are equal. */
  lemma GridEq(g: Grid, h: Grid, n: int)
    requires Square(g, n) && Square(h, n)
    requires forall r, c :: 0 <= r < n && 0 <= c < n ==> g[r][c] == h[r][c]
    ensures g == h
  {
    forall r | 0 <= r < n
      ensures g[r] == h[r]
    {
      assert forall c :: 0 <= c < n ==> g[r][c] == h[r][c];
    }
  }

  /** `GridOf(m)` equals a grid holding the array's modules. */
  lemma GridOfEq(m: array2<bool>, h: Grid)
    requires m.Length0 == m.Length1 && Square(h, m.Length0)
    requires forall r, c :: 0 <= r < m.Length0 && 0 <= c < m.Length0 ==> m[r, c] == h[r][c]
    ensures GridOf(m) == h
  {
    GridEq(GridOf(m), h, m.Length0);
  }
}
