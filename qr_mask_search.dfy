/**
 * The end of `L(t, e, n, a, o)` in main/static/js/qr-code.js: with no mask
 * asked for (o < 0) every mask is tried on the placed symbol, with its
 * format information, and scored by `C`; the first mask of least penalty is
 * kept. The chosen (or the asked for) mask and its format information are
 * then applied for good.
 */
module QrMaskSearch {
  import opened QrGrid
  import opened QrMask
  import opened QrFormat
  import opened QrPenalty
  import opened QrBch

  /** The format word for level ecc and mask k. */
  function Word(ecc: int, k: int): bv32
    requires 0 <= ecc < 4 && 0 <= k < 8
  {
    FormatWord(ecc as bv32, k as bv32)
  }

  /** The symbol g, of reserved modules res, with mask k and its format information applied. */
  function Candidate(g: Grid, res: Grid, ecc: int, k: int): (h: Grid)
    requires 0 <= ecc < 4 && 0 <= k < 8
    requires |g| >= 21 && Square(g, |g|) && Square(res, |g|)
    ensures Square(h, |g|)
  {
    WithFormat(Masked(g, res, k), Word(ecc, k))
  }

  /** The format modules are reserved, so masking never touches them. */
  ghost predicate FormatReserved(res: Grid)
  {
    forall r, c :: 0 <= r < |res| && 0 <= c < |res| && IsFormatCell(|res|, r, c) ==> |res[r]| > c && res[r][c]
  }

  /** The penalties of the eight candidates. */
  function Scores(g: Grid, res: Grid, ecc: int): (s: seq<nat>)
    requires 0 <= ecc < 4
    requires |g| >= 21 && Square(g, |g|) && Square(res, |g|)
    ensures |s| == 8
  {
    seq(8, k requires 0 <= k < 8 => Penalty(Candidate(g, res, ecc, k)))
  }

  /** c is the first index of least score among the first n. */
  predicate BestSoFar(s: seq<nat>, n: int, c: int)
  {
    0 <= c < n <= |s| && (forall k :: 0 <= k < n ==> s[c] <= s[k]) && (forall k :: 0 <= k < c ==> s[c] < s[k])
  }

  /** c is the first index of least score. */
  predicate FirstBest(s: seq<nat>, c: int)
  {
    BestSoFar(s, |s|, c)
  }

  /** The first score is the best among the first one. */
  lemma BestStart(s: seq<nat>)
    requires |s| > 0
    ensures BestSoFar(s, 1, 0)
  {
  }

  /** Looking at one more score: a strictly smaller one takes over, as `v > p` does. */
  lemma BestStep(s: seq<nat>, n: int, c: int)
    requires BestSoFar(s, n, c) && n < |s|
    ensures s[n] < s[c] ==> BestSoFar(s, n + 1, n)
    ensures s[c] <= s[n] ==> BestSoFar(s, n + 1, c)
  {
  }

  /** At most one index is the first of least score. */
  lemma FirstBestUnique(s: seq<nat>, c1: int, c2: int)
    requires FirstBest(s, c1) && FirstBest(s, c2)
    ensures c1 == c2
  {
    assert s[c1] <= s[c2] && s[c2] <= s[c1];
  }

  /** Every non-empty list of scores has a first best index. */
  lemma {:induction false} FirstBestExists(s: seq<nat>)
    requires |s| > 0
    ensures exists c :: FirstBest(s, c)
  {
    var c := 0;
    for k := 1 to |s|
      invariant BestSoFar(s, k, c)
    {
      BestStep(s, k, c);
      if s[k] < s[c] {
        c := k;
      }
    }
    assert FirstBest(s, c);
  }

  /**
   * A trial with mask k on the symbol left with some format word w: masking
   * and writing the format give candidate k, and masking again leaves the
   * symbol with the format word of k.
   */
  lemma {:induction false} Trial(g: Grid, res: Grid, ecc: int, k: int, w: bv32)
    requires 0 <= ecc < 4 && 0 <= k < 8
    requires |g| >= 21 && Square(g, |g|) && Square(res, |g|) && FormatReserved(res)
    ensures WithFormat(Masked(WithFormat(g, w), res, k), Word(ecc, k)) == Candidate(g, res, ecc, k)
    ensures Masked(Candidate(g, res, ecc, k), res, k) == WithFormat(g, Word(ecc, k))
  {
    MaskFormatCommute(g, res, k, w);
    FormatTwice(Masked(g, res, k), w, Word(ecc, k));
    MaskFormatCommute(Masked(g, res, k), res, k, Word(ecc, k));
    MaskTwice(g, res, k);
  }

  /** `A(h, l, k)` then `M(h, 0, a, k)`: applies mask k and writes its format information. */
  method ApplyCandidate(m: array2<bool>, res: array2<bool>, ecc: int, k: int)
    requires 0 <= ecc < 4 && 0 <= k < 8
    requires m.Length0 == m.Length1 == res.Length0 == res.Length1 >= 21 && m != res
    modifies m
    ensures GridOf(m) == WithFormat(Masked(old(GridOf(m)), GridOf(res), k), Word(ecc, k))
  {
    ApplyMask(m, res, k);
    WriteFormat(m, ecc as bv32, k as bv32);
  }

  /**
   * One trial of the search: on the placed symbol g, or on g left with the
   * format word w of the previous trial, applies candidate k, scores it with `C`
   * and masks again, leaving the symbol with the format word of k.
   */
  method TryMask(m: array2<bool>, res: array2<bool>, ecc: int, k: int, ghost g: Grid, ghost w: bv32) returns (p: nat)
    requires 0 <= ecc < 4 && 0 <= k < 8
    requires m.Length0 == m.Length1 == res.Length0 == res.Length1 >= 21 && m != res
    requires FormatReserved(GridOf(res)) && Square(g, m.Length0)
    requires GridOf(m) == g || GridOf(m) == WithFormat(g, w)
    modifies m
    ensures p == Penalty(Candidate(g, GridOf(res), ecc, k))
    ensures GridOf(m) == WithFormat(g, Word(ecc, k))
  {
    Trial(g, GridOf(res), ecc, k, w);
    ApplyCandidate(m, res, ecc, k);
    p := ComputePenalty(m);
    ApplyMask(m, res, k);
  }

  /** `if (v > p) { v = p; c = o; }`: keeps the first of least score. */
  method Keep(ghost s: seq<nat>, o: int, v: nat, c: int, p: nat) returns (v': nat, c': int)
    requires BestSoFar(s, o, c) && o < |s| && v == s[c] && p == s[o]
    ensures BestSoFar(s, o + 1, c') && v' == s[c']
    ensures c' == if v > p then o else c
  {
    BestStep(s, o, c);
    if v > p {
      v', c' := p, o;
    } else {
      v', c' := v, c;
    }
  }

  /**
   * The search loop: tries mask 0, then masks 1 to 7, keeping the first of
   * least penalty (`v > p` is strict), and undoes each trial mask. The
   * symbol is left with the format word of the last trial.
   */
  method SearchMask(m: array2<bool>, res: array2<bool>, ecc: int) returns (c: int)
    requires 0 <= ecc < 4
    requires m.Length0 == m.Length1 == res.Length0 == res.Length1 >= 21 && m != res
    requires FormatReserved(GridOf(res))
    modifies m
    ensures FirstBest(Scores(old(GridOf(m)), GridOf(res), ecc), c)
    ensures GridOf(m) == WithFormat(old(GridOf(m)), Word(ecc, 7))
  {
    ghost var g := GridOf(m);
    ghost var s := Scores(g, GridOf(res), ecc);
    var v := TryMask(m, res, ecc, 0, g, 0);
    assert v == s[0];
    BestStart(s);
    c := 0;
    for o := 1 to 8
      invariant GridOf(m) == WithFormat(g, Word(ecc, o - 1))
      invariant BestSoFar(s, o, c) && v == s[c]
    {
      var p := TryMask(m, res, ecc, o, g, Word(ecc, o - 1));
      v, c := Keep(s, o, v, c, p);
    }
  }

  /**
   * The last lines of `L`: with mask < 0 the search chooses the mask,
   * otherwise the asked for one is used; that mask and its format
   * information are applied to the placed symbol.
   */
  method FinishSymbol(m: array2<bool>, res: array2<bool>, ecc: int, mask: int) returns (chosen: int)
    requires 0 <= ecc < 4 && -1 <= mask < 8
    requires m.Length0 == m.Length1 == res.Length0 == res.Length1 >= 21 && m != res
    requires FormatReserved(GridOf(res))
    modifies m
    ensures 0 <= chosen < 8
    ensures mask >= 0 ==> chosen == mask
    ensures mask < 0 ==> FirstBest(Scores(old(GridOf(m)), GridOf(res), ecc), chosen)
    ensures GridOf(m) == Candidate(old(GridOf(m)), GridOf(res), ecc, chosen)
  {
    ghost var g := GridOf(m);
    ghost var rs := GridOf(res);
    chosen := mask;
    if mask < 0 {
      chosen := SearchMask(m, res, ecc);
      Trial(g, rs, ecc, chosen, Word(ecc, 7));
    }
    ApplyCandidate(m, res, ecc, chosen);
  }
}
