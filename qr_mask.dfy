/**
 * Data masking (section 7.8 of ISO/IEC 18004) as main/static/js/qr-code.js
 * does it: the eight mask conditions `p`, and `A(r, t, e)`, which flips
 * every module that is not reserved and whose position meets condition e.
 */
module QrMask {
  import opened QrGrid

  /**
   * The mask conditions `p[k](r, c)` for row r and column c. Row and column
   * are never negative, so JavaScript's `%` and `/2|0` agree with Dafny's.
   */
  predicate MaskBit(k: int, r: nat, c: nat)
    requires 0 <= k < 8
  {
    if k == 0 then (r + c) % 2 == 0
    else if k == 1 then r % 2 == 0
    else if k == 2 then c % 3 == 0
    else if k == 3 then (r + c) % 3 == 0
    else if k == 4 then (r / 2 + c / 3) % 2 == 0
    else if k == 5 then (r * c) % 2 + (r * c) % 3 == 0
    else if k == 6 then ((r * c) % 2 + (r * c) % 3) % 2 == 0
    else ((r + c) % 2 + (r * c) % 3) % 2 == 0
  }

  /** The grid g after `A` with mask k, given the reserved modules res. */
  function Masked(g: Grid, res: Grid, k: int): (h: Grid)
    requires 0 <= k < 8
    requires Square(g, |g|) && Square(res, |g|)
    ensures Square(h, |g|)
    ensures forall r, c :: 0 <= r < |g| && 0 <= c < |g| ==>
      (h[r][c] != g[r][c] <==> !res[r][c] && MaskBit(k, r, c))
  {
    seq(|g|, r requires 0 <= r < |g| =>
      seq(|g|, c requires 0 <= c < |g| => g[r][c] != (!res[r][c] && MaskBit(k, r, c))))
  }

  /** Masking twice with the same mask gives the grid back, which `L` relies on to undo a trial mask. */
  lemma {:induction false} MaskTwice(g: Grid, res: Grid, k: int)
    requires 0 <= k < 8
    requires Square(g, |g|) && Square(res, |g|)
    ensures Masked(Masked(g, res, k), res, k) == g
  {
    var h := Masked(Masked(g, res, k), res, k);
    forall r, c | 0 <= r < |g| && 0 <= c < |g|
      ensures h[r][c] == g[r][c]
    {
      var once := Masked(g, res, k);
      assert (once[r][c] != g[r][c]) == (h[r][c] != once[r][c]);
    }
    GridEq(h, g, |g|);
  }

  /** Masks with the same reserved modules only look at the modules outside them. */
  lemma {:induction false} MaskedAgree(g1: Grid, g2: Grid, res: Grid, k: int)
    requires 0 <= k < 8
    requires Square(g1, |g1|) && Square(g2, |g1|) && Square(res, |g1|)
    ensures forall r, c :: 0 <= r < |g1| && 0 <= c < |g1| && g1[r][c] == g2[r][c] ==>
      Masked(g1, res, k)[r][c] == Masked(g2, res, k)[r][c]
  {
  }

  /** `A(r, t, e)`: flips, in place, each module of m that res does not reserve and mask k selects. */
  method ApplyMask(m: array2<bool>, res: array2<bool>, k: int)
    requires 0 <= k < 8
    requires m.Length0 == m.Length1 == res.Length0 == res.Length1
    requires m != res
    modifies m
    ensures GridOf(m) == Masked(old(GridOf(m)), GridOf(res), k)
  {
    ghost var g := GridOf(m);
    var a := m.Length0;
    for o := 0 to a
      invariant forall r, c :: 0 <= r < a && 0 <= c < a ==>
        m[r, c] == if r < o then g[r][c] != (!res[r, c] && MaskBit(k, r, c)) else g[r][c]
    {
      for u := 0 to a
        invariant forall r, c :: 0 <= r < a && 0 <= c < a ==>
          m[r, c] == if r < o || (r == o && c < u) then g[r][c] != (!res[r, c] && MaskBit(k, r, c)) else g[r][c]
      {
        if !res[o, u] {
          m[o, u] := m[o, u] != MaskBit(k, o, u);
        }
      }
    }
    GridOfEq(m, Masked(g, GridOf(res), k));
  }
}
