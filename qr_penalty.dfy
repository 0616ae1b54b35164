/**
 * The mask penalty `C(r)` of main/static/js/qr-code.js (the evaluation of
 * section 7.8.3 of ISO/IEC 18004 as the source scores it). Every row and
 * every column is cut into a run list `[0, dark, light, dark, light, ...]`;
 * runs of five or more cost 3 plus the excess, a 1:1:3:1:1 dark-light
 * pattern next to four light widths costs 40, each uniform 2x2 block costs 3
 * and each full 5% of imbalance between dark and light costs 10.
 */
module QrPenalty {
  import opened QrGrid
  import QrBits

  // ---------------------------------------------------------------- runs

  /** The number of modules equal to b from position i on, up to the first other one. */
  function RunOf(line: seq<bool>, i: nat, b: bool): (n: nat)
    requires i <= |line|
    ensures i + n <= |line|
    ensures i < |line| && line[i] == b ==> n >= 1
    decreases |line| - i
  {
    if i < |line| && line[i] == b then 1 + RunOf(line, i + 1, b) else 0
  }

  /** The runs from position i: a dark run (possibly empty) then a light one, repeated to the end. */
  function RunPairs(line: seq<bool>, i: nat): (p: seq<nat>)
    requires i <= |line|
    decreases |line| - i
  {
    if i == |line| then []
    else
      var d := RunOf(line, i, true);
      var l := RunOf(line, i + d, false);
      [d, l] + RunPairs(line, i + d + l)
  }

  /** The run list the source builds for one row or column. */
  function Runs(line: seq<bool>): (u: seq<nat>)
  {
    [0] + RunPairs(line, 0)
  }

  /** n copies of b. */
  function Repeat(b: bool, n: nat): (s: seq<bool>)
    ensures |s| == n
  {
    if n == 0 then [] else [b] + Repeat(b, n - 1)
  }

  /** The line a list of alternating runs describes, starting with colour b. */
  function Stretch(runs: seq<nat>, b: bool): seq<bool>
  {
    if runs == [] then [] else Repeat(b, runs[0]) + Stretch(runs[1..], !b)
  }

  /** A run stops at a module of the other colour or at the end of the line. */
  lemma {:induction false} RunEnds(line: seq<bool>, i: nat, b: bool, n: nat)
    requires i <= |line| && n == RunOf(line, i, b)
    ensures i + n < |line| ==> line[i + n] != b
    decreases |line| - i
  {
    if i < |line| && line[i] == b {
      RunEnds(line, i + 1, b, n - 1);
    }
  }

  /** The modules a run covers all have its colour. */
  lemma {:induction false} RunSlice(line: seq<bool>, i: nat, b: bool, n: nat)
    requires i <= |line| && n == RunOf(line, i, b)
    ensures i + n <= |line| && line[i..i + n] == Repeat(b, n)
    decreases |line| - i
  {
    if i < |line| && line[i] == b {
      RunSlice(line, i + 1, b, n - 1);
      assert line[i..i + n] == [line[i]] + line[i + 1..i + n];
    }
  }

  /** The runs from position i stretch back to the rest of the line. */
  lemma {:induction false} PairsStretch(line: seq<bool>, i: nat)
    requires i <= |line|
    ensures Stretch(RunPairs(line, i), true) == line[i..]
    decreases |line| - i
  {
    if i < |line| {
      var d := RunOf(line, i, true);
      var l := RunOf(line, i + d, false);
      var k := i + d + l;
      PairsUnfold(line, i, d, l, k);
      PairsStretch(line, k);
      StretchStep(line, i, d, l, k, RunPairs(line, k));
      StretchSame(RunPairs(line, i), [d, l] + RunPairs(line, k), line[i..]);
    }
  }

  lemma StretchSame(p: seq<nat>, q: seq<nat>, s: seq<bool>)
    requires p == q && Stretch(q, true) == s
    ensures Stretch(p, true) == s
  {
  }

  /** A dark run and a light run from i, stretched in front of the runs from k, give the line from i. */
  lemma StretchStep(line: seq<bool>, i: nat, d: nat, l: nat, k: nat, rest: seq<nat>)
    requires i <= |line| && d == RunOf(line, i, true)
    requires i + d <= |line| && l == RunOf(line, i + d, false) && k == i + d + l
    requires k <= |line| && Stretch(rest, true) == line[k..]
    ensures Stretch([d, l] + rest, true) == line[i..]
  {
    RunSlice(line, i, true, d);
    RunSlice(line, i + d, false, l);
    SplitThree(line, i, i + d, k);
    StretchPair(d, l, rest);
  }

  /** A dark and a light run in front of a run list stretch in front of its line. */
  lemma StretchPair(d: nat, l: nat, rest: seq<nat>)
    ensures Stretch([d, l] + rest, true) == Repeat(true, d) + Repeat(false, l) + Stretch(rest, true)
  {
    var p := [d, l] + rest;
    assert p[1..] == [l] + rest && p[1..][1..] == rest;
  }

  lemma SplitThree(s: seq<bool>, i: nat, j: nat, k: nat)
    requires i <= j <= k <= |s|
    ensures s[i..] == s[i..j] + s[j..k] + s[k..]
  {
  }

  /**
   * The runs from position i are maximal: all but the first and the last are
   * non-empty, and the first is non-empty when the line is dark at i.
   */
  lemma {:induction false} PairsPositive(line: seq<bool>, i: nat)
    requires i <= |line|
    ensures forall j :: 1 <= j < |RunPairs(line, i)| - 1 ==> RunPairs(line, i)[j] > 0
    ensures i < |line| && line[i] ==> RunPairs(line, i)[0] > 0
    decreases |line| - i
  {
    if i < |line| {
      var d := RunOf(line, i, true);
      var l := RunOf(line, i + d, false);
      var rest := RunPairs(line, i + d + l);
      var p := RunPairs(line, i);
      assert p == [d, l] + rest;
      if rest != [] {
        RunEnds(line, i, true, d);
        assert line[i + d] == false;
        assert l > 0;
        RunEnds(line, i + d, false, l);
        PairsPositive(line, i + d + l);
        assert rest[0] > 0;
        forall j | 1 <= j < |p| - 1
          ensures p[j] > 0
        {
          if j >= 2 {
            assert p[j] == rest[j - 2];
          }
        }
      }
    }
  }

  /**
   * The run list is the line's decomposition into maximal runs: stretched out
   * from dark it gives the line back, and no run but the first dark and the
   * last light one is empty.
   */
  lemma RunsDescribe(line: seq<bool>)
    ensures Stretch(Runs(line)[1..], true) == line
    ensures forall j :: 2 <= j < |Runs(line)| - 1 ==> Runs(line)[j] > 0
  {
    PairsStretch(line, 0);
    PairsPositive(line, 0);
    assert Runs(line)[1..] == RunPairs(line, 0);
  }

  // ---------------------------------------------------------------- scoring a run list

  /** The run cost of the first e runs: a run of five or more costs 3 plus its length beyond five. */
  function RunCost(u: seq<nat>, e: nat): nat
    requires e <= |u|
  {
    if e == 0 then 0 else RunCost(u, e - 1) + (if u[e - 1] >= 5 then u[e - 1] - 5 + 3 else 0)
  }

  /**
   * At odd index e the run list ends a dark n, light n, dark 3n, light n,
   * dark n pattern, with a light run of at least 4n before it or after it.
   * A run after the end of the list does not exist, so its comparison fails.
   */
  predicate FinderLike(u: seq<nat>, e: nat)
    requires 5 <= e < |u|
  {
    var n := u[e];
    u[e - 1] == n && u[e - 2] == 3 * n && u[e - 3] == n && u[e - 4] == n
    && (u[e - 5] >= 4 * n || (e + 1 < |u| && u[e + 1] >= 4 * n))
  }

  /** How many odd indices from 5 below e end a finder-like pattern. */
  function FinderCount(u: seq<nat>, e: nat): nat
    requires e <= |u|
  {
    if e == 0 then 0
    else FinderCount(u, e - 1) + (if e - 1 >= 5 && (e - 1) % 2 == 1 && FinderLike(u, e - 1) then 1 else 0)
  }

  /** The inner function `t(u)` of `C`: run cost plus 40 per finder-like pattern. */
  function LineScore(u: seq<nat>): nat
  {
    RunCost(u, |u|) + 40 * FinderCount(u, |u|)
  }

  /** A line whose runs are all shorter than five and which has no finder-like pattern scores nothing. */
  lemma {:induction false} QuietLine(u: seq<nat>)
    requires forall j :: 0 <= j < |u| ==> u[j] < 5
    requires forall e :: 5 <= e < |u| && e % 2 == 1 ==> !FinderLike(u, e)
    ensures LineScore(u) == 0
  {
    QuietPrefix(u, |u|);
  }

  lemma {:induction false} QuietPrefix(u: seq<nat>, e: nat)
    requires e <= |u|
    requires forall j :: 0 <= j < |u| ==> u[j] < 5
    requires forall e :: 5 <= e < |u| && e % 2 == 1 ==> !FinderLike(u, e)
    ensures RunCost(u, e) == 0 && FinderCount(u, e) == 0
  {
    if e > 0 {
      QuietPrefix(u, e - 1);
    }
  }

  function Min(a: int, b: int): int {
    if a < b then a else b
  }

  /** No finder-like pattern ends below index 5. */
  lemma {:induction false} NoFinderBelow(u: seq<nat>, e: nat)
    requires e <= |u| && e <= 5
    ensures FinderCount(u, e) == 0
  {
    if e > 0 {
      NoFinderBelow(u, e - 1);
    }
  }

  /** `t(u)`: the run cost loop and the pattern loop over odd indices from 5. */
  method ScoreLine(u: seq<nat>) returns (t: nat)
    ensures t == LineScore(u)
  {
    t := 0;
    for e := 0 to |u|
      invariant t == RunCost(u, e)
    {
      if u[e] >= 5 {
        t := t + (u[e] - 5 + 3);
      }
    }
    var e := 5;
    NoFinderBelow(u, Min(e, |u|));
    while e < |u|
      invariant 5 <= e && e % 2 == 1
      invariant e <= |u| + 1 || e == 5
      invariant t == RunCost(u, |u|) + 40 * FinderCount(u, Min(e, |u|))
    {
      var n := u[e];
      if u[e - 1] == n && u[e - 2] == 3 * n && u[e - 3] == n && u[e - 4] == n
        && (u[e - 5] >= 4 * n || (e + 1 < |u| && u[e + 1] >= 4 * n))
      {
        t := t + 40;
      }
      assert FinderCount(u, e + 1) == FinderCount(u, e) + (if FinderLike(u, e) then 1 else 0);
      if e + 1 < |u| {
        assert FinderCount(u, e + 2) == FinderCount(u, e + 1);
      }
      e := e + 2;
    }
  }

  // ---------------------------------------------------------------- the whole matrix

  /** Row o (byRow) or column o of g. */
  function Line(g: Grid, o: nat, byRow: bool): (line: seq<bool>)
    requires Square(g, |g|) && o < |g|
    ensures |line| == |g|
  {
    seq(|g|, i requires 0 <= i < |g| => if byRow then g[o][i] else g[i][o])
  }

  /** The 2x2 block with top right corner (o, i) is one colour. */
  predicate Uniform(g: Grid, o: nat, i: nat)
    requires Square(g, |g|) && o + 1 < |g| && 1 <= i < |g|
  {
    g[o][i - 1] == g[o][i] && g[o + 1][i] == g[o][i] && g[o + 1][i - 1] == g[o][i]
  }

  /** The uniform blocks with top row o and right column below i; the last row starts none. */
  function BlockCount(g: Grid, o: nat, i: nat): nat
    requires Square(g, |g|) && o < |g| && i <= |g|
  {
    if i <= 1 then 0
    else BlockCount(g, o, i - 1) + (if o + 1 < |g| && Uniform(g, o, i - 1) then 1 else 0)
  }

  /** The dark modules of row o before column i. */
  function DarkCount(g: Grid, o: nat, i: nat): nat
    requires Square(g, |g|) && o < |g| && i <= |g|
  {
    if i == 0 then 0 else DarkCount(g, o, i - 1) + (if g[o][i - 1] then 1 else 0)
  }

  /** What row o adds to the penalty: its runs, column o's runs and its uniform blocks. */
  function RowPenalty(g: Grid, o: nat): nat
    requires Square(g, |g|) && o < |g|
  {
    LineScore(Runs(Line(g, o, true))) + LineScore(Runs(Line(g, o, false))) + 3 * BlockCount(g, o, |g|)
  }

  /** The penalty of rows (and columns) below o. */
  function PenaltyUpTo(g: Grid, o: nat): nat
    requires Square(g, |g|) && o <= |g|
  {
    if o == 0 then 0 else PenaltyUpTo(g, o - 1) + RowPenalty(g, o - 1)
  }

  /** The dark modules in rows below o. */
  function DarkUpTo(g: Grid, o: nat): nat
    requires Square(g, |g|) && o <= |g|
  {
    if o == 0 then 0 else DarkUpTo(g, o - 1) + DarkCount(g, o - 1, |g|)
  }

  function Abs(x: int): nat {
    if x < 0 then -x else x
  }

  /**
   * `10*(Math.abs(a/e/e-.5)/.05|0)` in exact arithmetic: ten points per whole
   * 5% by which the dark share a/e^2 is away from one half.
   */
  function Balance(a: nat, e: nat): nat
    requires e > 0
  {
    10 * (Abs(20 * a - 10 * e * e) / (e * e))
  }

  /** `C(r)`: the penalty of a square grid. */
  function Penalty(g: Grid): nat
    requires Square(g, |g|) && |g| > 0
  {
    PenaltyUpTo(g, |g|) + Balance(DarkUpTo(g, |g|), |g|)
  }

  /** The balance term is 10k exactly when the dark share is k to k+1 steps of 5% away from one half. */
  lemma BalanceSteps(a: nat, e: nat, k: nat)
    requires e > 0
    ensures Balance(a, e) == 10 * k <==> k * (e * e) <= Abs(20 * a - 10 * e * e) < (k + 1) * (e * e)
  {
    var d := e * e;
    var x := Abs(20 * a - 10 * e * e);
    assert d > 0;
    if k * d <= x < (k + 1) * d {
      QrBits.DivUnique(x, d, k, x - k * d);
    }
    if Balance(a, e) == 10 * k {
      QrBits.DivUnique(x, d, x / d, x % d);
      assert x / d == k;
    }
  }

  /** The balance term is zero exactly when between 45% and 55% of the modules are dark. */
  lemma BalanceFree(a: nat, e: nat)
    requires e > 0
    ensures Balance(a, e) == 0 <==> 9 * (e * e) < 20 * a < 11 * (e * e)
  {
    BalanceSteps(a, e, 0);
  }

  // ---------------------------------------------------------------- the loops of C

  /** The row (byRow) or column o of m as `C` reads it. */
  function Cell(m: array2<bool>, o: int, i: int, byRow: bool): bool
    reads m
    requires m.Length0 == m.Length1 && 0 <= o < m.Length0 && 0 <= i < m.Length0
  {
    if byRow then m[o, i] else m[i, o]
  }

  /** The dark run loop `for(s=0;i<e&&f[i];++s)++i` (b true) and the light one with `!f[i]` (b false). */
  method MeasureRun(m: array2<bool>, o: int, byRow: bool, ghost line: seq<bool>, i0: int, b: bool) returns (s: nat, i: int)
    requires m.Length0 == m.Length1 && 0 <= o < m.Length0 && 0 <= i0 <= m.Length0
    requires line == Line(GridOf(m), o, byRow)
    ensures s == RunOf(line, i0, b) && i == i0 + s
  {
    var e := m.Length0;
    s, i := 0, i0;
    while i < e && Cell(m, o, i, byRow) == b
      invariant i0 <= i <= e && i == i0 + s
      invariant s + RunOf(line, i, b) == RunOf(line, i0, b)
    {
      RunStep(m, o, byRow, line, i, b);
      s, i := s + 1, i + 1;
    }
    RunStep(m, o, byRow, line, i, b);
  }

  /** A run of b from i is one longer than the run from i+1 when the module at i is b, and empty otherwise. */
  lemma RunStep(m: array2<bool>, o: int, byRow: bool, line: seq<bool>, i: int, b: bool)
    requires m.Length0 == m.Length1 && 0 <= o < m.Length0 && 0 <= i <= m.Length0
    requires line == Line(GridOf(m), o, byRow)
    ensures i < m.Length0 && Cell(m, o, i, byRow) == b ==> RunOf(line, i, b) == 1 + RunOf(line, i + 1, b)
    ensures !(i < m.Length0 && Cell(m, o, i, byRow) == b) ==> RunOf(line, i, b) == 0
  {
    if i < m.Length0 {
      assert line[i] == Cell(m, o, i, byRow);
    }
  }

  /** The run list of row or column o: `u=[0]` then dark and light runs pushed in turn. */
  method LineRuns(m: array2<bool>, o: int, byRow: bool) returns (u: seq<nat>)
    requires m.Length0 == m.Length1 && 0 <= o < m.Length0
    ensures u == Runs(Line(GridOf(m), o, byRow))
  {
    ghost var line := Line(GridOf(m), o, byRow);
    var e := m.Length0;
    u := [0];
    var i := 0;
    while i < e
      invariant 0 <= i <= e
      invariant u + RunPairs(line, i) == Runs(line)
      decreases e - i
    {
      u, i := PushRuns(m, o, byRow, line, u, i);
    }
  }

  /** One pass of the run loop: the dark run and then the light run from i pushed onto u. */
  method PushRuns(m: array2<bool>, o: int, byRow: bool, ghost line: seq<bool>, u0: seq<nat>, i0: int)
    returns (u: seq<nat>, i: int)
    requires m.Length0 == m.Length1 && 0 <= o < m.Length0 && 0 <= i0 < m.Length0
    requires line == Line(GridOf(m), o, byRow)
    ensures i0 < i <= m.Length0
    ensures u + RunPairs(line, i) == u0 + RunPairs(line, i0)
  {
    var d, l;
    d, i := MeasureRun(m, o, byRow, line, i0, true);
    l, i := MeasureRun(m, o, byRow, line, i, false);
    PushPair(line, u0, i0, d, l, i);
    PairAdvances(line, i0, d, l);
    u := u0 + [d, l];
  }

  /** A dark and a light run together cover at least one module. */
  lemma PairAdvances(line: seq<bool>, i: nat, d: nat, l: nat)
    requires i < |line| && d == RunOf(line, i, true) && l == RunOf(line, i + d, false)
    ensures d + l >= 1
  {
    if !line[i] {
      assert d == 0;
    }
  }

  /** One pass of the run loop moves a dark and a light run from the line to the list. */
  lemma PushPair(line: seq<bool>, u: seq<nat>, i: nat, d: nat, l: nat, k: nat)
    requires i < |line| && d == RunOf(line, i, true) && l == RunOf(line, i + d, false) && k == i + d + l
    ensures u + RunPairs(line, i) == (u + [d, l]) + RunPairs(line, k)
  {
    PairsUnfold(line, i, d, l, k);
    Regroup(u, [d, l], RunPairs(line, k));
  }

  lemma PairsUnfold(line: seq<bool>, i: nat, d: nat, l: nat, k: nat)
    requires i < |line| && d == RunOf(line, i, true) && l == RunOf(line, i + d, false) && k == i + d + l
    ensures RunPairs(line, i) == [d, l] + RunPairs(line, k)
  {
    assert i != |line|;
    var p := RunPairs(line, i);
    assert p == [d, l] + RunPairs(line, k);
  }

  lemma Regroup(u: seq<nat>, a: seq<nat>, y: seq<nat>)
    ensures u + (a + y) == (u + a) + y
  {
  }

  /** The 2x2 loop of row o, which also counts its dark modules. */
  method RowBlocks(m: array2<bool>, o: int) returns (blocks: nat, dark: nat)
    requires m.Length0 == m.Length1 && 0 <= o < m.Length0
    ensures blocks == BlockCount(GridOf(m), o, m.Length0)
    ensures dark == DarkCount(GridOf(m), o, m.Length0)
  {
    ghost var g := GridOf(m);
    var e := m.Length0;
    blocks := 0;
    dark := if m[o, 0] then 1 else 0;
    for i := 1 to e
      invariant blocks == BlockCount(g, o, i)
      invariant dark == DarkCount(g, o, i)
    {
      var l := m[o, i];
      if l {
        dark := dark + 1;
      }
      if m[o, i - 1] == l && o + 1 < e && m[o + 1, i] == l && m[o + 1, i - 1] == l {
        blocks := blocks + 1;
      }
    }
  }

  /** One pass of the outer loop of `C`: row o's and column o's runs, row o's blocks and dark modules. */
  method ScoreRow(m: array2<bool>, o: int) returns (t: nat, dark: nat)
    requires m.Length0 == m.Length1 && 0 <= o < m.Length0
    ensures t == RowPenalty(GridOf(m), o)
    ensures dark == DarkCount(GridOf(m), o, m.Length0)
  {
    var u := LineRuns(m, o, true);
    var inRow := ScoreLine(u);
    u := LineRuns(m, o, false);
    var inColumn := ScoreLine(u);
    var blocks;
    blocks, dark := RowBlocks(m, o);
    t := inRow + inColumn + 3 * blocks;
  }

  /** `C(r)`: scores the matrix m, rows and columns together, then the dark balance. */
  method ComputePenalty(m: array2<bool>) returns (p: nat)
    requires m.Length0 == m.Length1 > 0
    ensures p == Penalty(GridOf(m))
  {
    ghost var g := GridOf(m);
    var e := m.Length0;
    var n, a := 0, 0;
    for o := 0 to e
      invariant n == PenaltyUpTo(g, o) && a == DarkUpTo(g, o)
    {
      var t, dark := ScoreRow(m, o);
      n, a := n + t, a + dark;
    }
    p := n + Balance(a, e);
  }
}
