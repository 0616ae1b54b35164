/**
 * Codeword placement (section 7.7.3 of ISO/IEC 18004) as the anonymous
 * placement function inside `L` of main/static/js/qr-code.js does it: the
 * bits of the codeword stream, most significant first, go into the modules
 * that are not reserved, in a zigzag over pairs of columns from the right
 * edge, upward in the first pair and alternating after that; column 6 (the
 * vertical timing pattern) is skipped. Past the end of the stream the source
 * reads `undefined`, which `>>` and `&` turn into a light module.
 */
module QrPlacement {
  import opened QrGrid

  /** A module position: row r, column c. */
  datatype Cell = Cell(r: int, c: int)

  /** The number of column pairs the zigzag visits in a symbol of odd side n. */
  function PairCount(n: int): int {
    n / 2
  }

  /** The column `u` holds when pair p starts: n-1, n-3, ... (before the timing skip). */
  function Head(n: int, p: int): int {
    if n - 1 - 2 * p >= 6 then n - 1 - 2 * p else n - 2 - 2 * p
  }

  /** The right column of pair p: `u` once `6 == u && --u` has moved it off the timing column. */
  function RightCol(n: int, p: int): int {
    if n - 1 - 2 * p > 6 then n - 1 - 2 * p else n - 2 - 2 * p
  }

  /** The direction `o` of pair p: -1 (upward) on even pairs, 1 (downward) on odd ones. */
  function Dir(p: int): int {
    if p % 2 == 0 then -1 else 1
  }

  /** The row visited at step i of pair p: from the bottom when `o < 0`, from the top otherwise. */
  function PairRow(n: int, p: int, i: int): int {
    if Dir(p) < 0 then n - 1 - i else i
  }

  /** The cells of pair p in visiting order: in each row the right column, then the left. */
  function PairCells(n: nat, p: int): (cs: seq<Cell>)
    ensures |cs| == 2 * n
  {
    seq(2 * n, w => Cell(PairRow(n, p, w / 2), RightCol(n, p) - w % 2))
  }

  /** The cells of pairs 0 to p-1, in visiting order. */
  function OrderUpTo(n: nat, p: nat): seq<Cell>
  {
    if p == 0 then [] else OrderUpTo(n, p - 1) + PairCells(n, p - 1)
  }

  /** Every module the zigzag visits, in order. */
  function Order(n: nat): (ord: seq<Cell>)
    ensures n >= 21 && n % 2 == 1 ==> Within(ord, n)
  {
    if n >= 21 && n % 2 == 1 then OrderUpToWithin(n, PairCount(n)); OrderUpTo(n, PairCount(n))
    else OrderUpTo(n, PairCount(n))
  }

  /** Every cell of ord lies in a symbol of side n. */
  predicate Within(ord: seq<Cell>, n: int) {
    forall k :: 0 <= k < |ord| ==> 0 <= ord[k].r < n && 0 <= ord[k].c < n
  }

  /** No cell occurs twice in ord. */
  predicate Distinct(ord: seq<Cell>) {
    forall j, k :: 0 <= j < k < |ord| ==> ord[j] != ord[k]
  }

  /** Bit b of byte x, counting from the most significant. */
  predicate ByteBit(x: bv8, b: nat)
    requires b < 8
  {
    (x >> (7 - b)) & 1 == 1
  }

  /** Bit a of the stream, most significant bit of each byte first: `e[a >> 3] >> (7 & ~a) & 1`; light past the end. */
  predicate DataBit(data: seq<bv8>, a: nat) {
    a / 8 < |data| && ByteBit(data[a / 8], a % 8)
  }

  /** The first len bits of the stream. */
  function StreamBits(data: seq<bv8>, len: nat): (bits: seq<bool>)
    ensures |bits| == len
  {
    seq(len, j requires 0 <= j => DataBit(data, j))
  }

  /** One more bit of the stream. */
  lemma StreamBitsStep(data: seq<bv8>, len: nat)
    ensures StreamBits(data, len + 1) == StreamBits(data, len) + [DataBit(data, len)]
  {
  }

  /** The grid g with module (r, c) set to b. */
  function Set(g: Grid, r: int, c: int, b: bool): (h: Grid)
    requires 0 <= r < |g| && 0 <= c < |g[r]|
    ensures |h| == |g| && forall i :: 0 <= i < |g| ==> |h[i]| == |g[i]|
    ensures forall i, j :: 0 <= i < |g| && 0 <= j < |g[i]| ==> h[i][j] == if i == r && j == c then b else g[i][j]
  {
    g[r := g[r][c := b]]
  }

  /** Cell x lies in grid g. */
  predicate InGrid(g: Grid, x: Cell) {
    0 <= x.r < |g| && 0 <= x.c < |g[x.r]|
  }

  /** Cell x is a module of res that is not reserved (`!t[f][s]`). */
  predicate Free(res: Grid, x: Cell) {
    InGrid(res, x) && !res[x.r][x.c]
  }

  /** The number of cells of ord that are not reserved in res. */
  function Count(res: Grid, ord: seq<Cell>): nat
  {
    if |ord| == 0 then 0
    else Count(res, ord[..|ord| - 1]) + if Free(res, ord[|ord| - 1]) then 1 else 0
  }

  /**
   * The grid g after the cells of ord have been visited in order: each cell
   * not reserved in res takes the next bit of the stream.
   */
  function Placed(g: Grid, res: Grid, data: seq<bv8>, ord: seq<Cell>): (h: Grid)
    ensures |h| == |g| && forall i :: 0 <= i < |g| ==> |h[i]| == |g[i]|
  {
    if |ord| == 0 then g
    else
      var x := ord[|ord| - 1];
      var prev := Placed(g, res, data, ord[..|ord| - 1]);
      if Free(res, x) && InGrid(g, x) then Set(prev, x.r, x.c, DataBit(data, Count(res, ord[..|ord| - 1]))) else prev
  }

  /** The modules of g at the cells of ord that are not reserved, in order: what a reader collects. */
  function Collect(g: Grid, res: Grid, ord: seq<Cell>): (bits: seq<bool>)
    requires Square(g, |g|) && Square(res, |g|) && Within(ord, |g|)
    ensures |bits| == Count(res, ord)
  {
    if |ord| == 0 then []
    else
      var x := ord[|ord| - 1];
      Collect(g, res, ord[..|ord| - 1]) + if Free(res, x) then [g[x.r][x.c]] else []
  }

  /** Placement changes only the cells of ord that are not reserved. */
  lemma {:induction false} PlacedElsewhere(g: Grid, res: Grid, data: seq<bv8>, ord: seq<Cell>, r: int, c: int)
    requires Square(g, |g|) && Square(res, |g|) && Within(ord, |g|)
    requires 0 <= r < |g| && 0 <= c < |g|
    requires res[r][c] || Cell(r, c) !in ord
    ensures Placed(g, res, data, ord)[r][c] == g[r][c]
  {
    if |ord| > 0 {
      var pre := ord[..|ord| - 1];
      assert Cell(r, c) in ord ==> Cell(r, c) in pre || Cell(r, c) == ord[|ord| - 1];
      PlacedElsewhere(g, res, data, pre, r, c);
    }
  }

  /** Collecting reads only the unreserved cells of ord: grids that agree there collect the same bits. */
  lemma {:induction false} CollectFrame(g: Grid, h: Grid, res: Grid, ord: seq<Cell>)
    requires Square(g, |g|) && Square(h, |g|) && Square(res, |g|) && Within(ord, |g|)
    requires forall k :: 0 <= k < |ord| && !res[ord[k].r][ord[k].c] ==> g[ord[k].r][ord[k].c] == h[ord[k].r][ord[k].c]
    ensures Collect(g, res, ord) == Collect(h, res, ord)
  {
    if |ord| > 0 {
      CollectFrame(g, h, res, ord[..|ord| - 1]);
    }
  }

  /** The last cell of ord, when free, takes the stream bit numbered by the free cells before it; no other cell changes. */
  lemma PlacedStep(g: Grid, res: Grid, data: seq<bv8>, ord: seq<Cell>, r: int, c: int)
    requires |ord| > 0 && Square(g, |g|) && Square(res, |g|) && Within(ord, |g|)
    requires 0 <= r < |g| && 0 <= c < |g|
    ensures Placed(g, res, data, ord)[r][c] ==
      if Cell(r, c) == ord[|ord| - 1] && Free(res, Cell(r, c)) then DataBit(data, Count(res, ord[..|ord| - 1]))
      else Placed(g, res, data, ord[..|ord| - 1])[r][c]
  {
  }

  /** Placing the last cell of ord leaves what the earlier cells collect unchanged, as no cell repeats. */
  lemma {:induction false} CollectBeforeLast(g: Grid, res: Grid, data: seq<bv8>, ord: seq<Cell>)
    requires |ord| > 0 && Square(g, |g|) && Square(res, |g|) && Within(ord, |g|) && Distinct(ord)
    ensures Collect(Placed(g, res, data, ord), res, ord[..|ord| - 1]) == Collect(Placed(g, res, data, ord[..|ord| - 1]), res, ord[..|ord| - 1])
  {
    var pre := ord[..|ord| - 1];
    var prev := Placed(g, res, data, pre);
    var h := Placed(g, res, data, ord);
    forall k | 0 <= k < |pre|
      ensures prev[pre[k].r][pre[k].c] == h[pre[k].r][pre[k].c]
    {
      assert pre[k] == ord[k] != ord[|ord| - 1];
      PlacedStep(g, res, data, ord, pre[k].r, pre[k].c);
    }
    CollectFrame(prev, h, res, pre);
  }

  /**
   * Read-back: when the order visits no cell twice, collecting the
   * unreserved modules in the same order gives the stream's bits, one per
   * unreserved cell.
   */
  lemma {:induction false} ReadBack(g: Grid, res: Grid, data: seq<bv8>, ord: seq<Cell>)
    requires Square(g, |g|) && Square(res, |g|) && Within(ord, |g|) && Distinct(ord)
    ensures Collect(Placed(g, res, data, ord), res, ord) == StreamBits(data, Count(res, ord))
  {
    if |ord| > 0 {
      var pre := ord[..|ord| - 1];
      var x := ord[|ord| - 1];
      var h := Placed(g, res, data, ord);
      var c := Count(res, pre);
      ReadBack(g, res, data, pre);
      CollectBeforeLast(g, res, data, ord);
      var before := Collect(h, res, pre);
      assert before == StreamBits(data, c);
      if Free(res, x) {
        PlacedStep(g, res, data, ord, x.r, x.c);
        assert Collect(h, res, ord) == before + [DataBit(data, c)];
        StreamBitsStep(data, c);
      } else {
        assert Collect(h, res, ord) == before;
      }
    }
  }

  /** A bit of the stream is the matching bit of its byte. */
  lemma DataBitOfByte(data: seq<bv8>, i: nat, b: nat)
    requires i < |data| && b < 8
    ensures DataBit(data, 8 * i + b) == ByteBit(data[i], b)
  {
    assert (8 * i + b) / 8 == i && (8 * i + b) % 8 == b;
  }

  /** The byte whose bits, most significant first, are bits. */
  function Byte(bits: seq<bool>): (x: bv8)
    requires |bits| == 8
  {
    (if bits[0] then 0x80 else 0) | (if bits[1] then 0x40 else 0) | (if bits[2] then 0x20 else 0) | (if bits[3] then 0x10 else 0)
    | (if bits[4] then 0x08 else 0) | (if bits[5] then 0x04 else 0) | (if bits[6] then 0x02 else 0) | (if bits[7] then 0x01 else 0)
  }

  /** The eight bits of a byte, most significant first, make that byte again. */
  lemma ByteOfBits(x: bv8)
    ensures Byte(seq(8, b requires 0 <= b < 8 => ByteBit(x, b))) == x
  {
  }

  /** Bits 8i to 8i+7 of the stream are the bits of byte i. */
  lemma StreamByte(data: seq<bv8>, len: nat, i: nat)
    requires i < |data| && 8 * i + 8 <= len
    ensures StreamBits(data, len)[8 * i .. 8 * i + 8] == seq(8, b requires 0 <= b < 8 => ByteBit(data[i], b))
  {
    var bits := StreamBits(data, len)[8 * i .. 8 * i + 8];
    forall b | 0 <= b < 8
      ensures bits[b] == ByteBit(data[i], b)
    {
      DataBitOfByte(data, i, b);
    }
  }

  /**
   * Every byte of the stream can be read back from the symbol: when the order
   * visits no cell twice and has room for the whole stream, the unreserved
   * modules collected in order give each byte's eight bits.
   */
  lemma {:induction false} BytesReadBack(g: Grid, res: Grid, data: seq<bv8>, ord: seq<Cell>, i: nat)
    requires Square(g, |g|) && Square(res, |g|) && Within(ord, |g|) && Distinct(ord)
    requires 8 * |data| <= Count(res, ord) && i < |data|
    ensures Byte(Collect(Placed(g, res, data, ord), res, ord)[8 * i .. 8 * i + 8]) == data[i]
  {
    ReadBack(g, res, data, ord);
    StreamByte(data, Count(res, ord), i);
    ByteOfBits(data[i]);
  }

  /** The columns of pair p, for a symbol of odd side n >= 21: inside the symbol, off column 6, and right of the next pair. */
  lemma PairColumns(n: int, p: int)
    requires n >= 21 && n % 2 == 1 && 0 <= p < PairCount(n)
    ensures 1 <= RightCol(n, p) < n && RightCol(n, p) != 6 && RightCol(n, p) - 1 != 6
    ensures p + 1 < PairCount(n) ==> RightCol(n, p + 1) < RightCol(n, p) - 1
  {
  }

  /** The loop over `u` runs exactly once per pair, and `u` is the pair's right column after the timing skip. */
  lemma HeadStep(n: int, p: int)
    requires n >= 21 && n % 2 == 1 && 0 <= p <= PairCount(n)
    ensures Head(n, p) >= 0 <==> p < PairCount(n)
    ensures p < PairCount(n) ==> RightCol(n, p) == (if Head(n, p) == 6 then 5 else Head(n, p))
    ensures p < PairCount(n) ==> Head(n, p + 1) == RightCol(n, p) - 2
  {
  }

  /** The cells of a pair lie in the symbol, off column 6, and between its right column and the one before it. */
  lemma {:induction false} PairWithin(n: nat, p: int)
    requires n >= 21 && n % 2 == 1 && 0 <= p < PairCount(n)
    ensures Within(PairCells(n, p), n)
    ensures forall k :: 0 <= k < 2 * n ==> RightCol(n, p) - 1 <= PairCells(n, p)[k].c <= RightCol(n, p) && PairCells(n, p)[k].c != 6
  {
    PairColumns(n, p);
  }

  /** The cells of pairs 0 to p-1 lie in the symbol, off column 6, and right of pair p. */
  lemma {:induction false} OrderUpToWithin(n: nat, p: nat)
    requires n >= 21 && n % 2 == 1 && p <= PairCount(n)
    ensures Within(OrderUpTo(n, p), n)
    ensures forall k :: 0 <= k < |OrderUpTo(n, p)| ==> OrderUpTo(n, p)[k].c != 6
    ensures p < PairCount(n) ==> forall k :: 0 <= k < |OrderUpTo(n, p)| ==> OrderUpTo(n, p)[k].c > RightCol(n, p)
  {
    if p > 0 {
      OrderUpToWithin(n, p - 1);
      PairWithin(n, p - 1);
      PairColumns(n, p - 1);
    }
  }

  /** Within one pair no cell is visited twice. */
  lemma {:induction false} PairDistinct(n: nat, p: int)
    ensures Distinct(PairCells(n, p))
  {
    var cs := PairCells(n, p);
    forall j, k | 0 <= j < k < |cs|
      ensures cs[j] != cs[k]
    {
      if j / 2 == k / 2 {
        assert j % 2 != k % 2;
      } else {
        assert PairRow(n, p, j / 2) != PairRow(n, p, k / 2);
      }
    }
  }

  /** The zigzag visits no module twice. */
  lemma {:induction false} OrderUpToDistinct(n: nat, p: nat)
    requires n >= 21 && n % 2 == 1 && p <= PairCount(n)
    ensures Distinct(OrderUpTo(n, p))
  {
    if p > 0 {
      OrderUpToDistinct(n, p - 1);
      OrderUpToWithin(n, p - 1);
      PairWithin(n, p - 1);
      PairDistinct(n, p - 1);
      var pre, cs := OrderUpTo(n, p - 1), PairCells(n, p - 1);
      var all := OrderUpTo(n, p);
      assert all == pre + cs;
      forall j, k | 0 <= j < k < |all|
        ensures all[j] != all[k]
      {
        if k < |pre| {
          assert all[j] == pre[j] && all[k] == pre[k];
        } else if j >= |pre| {
          assert all[j] == cs[j - |pre|] && all[k] == cs[k - |pre|];
        } else {
          assert all[j].c > RightCol(n, p - 1) >= all[k].c;
        }
      }
    }
  }

  /** Every cell of an earlier pair stays in the order. */
  lemma {:induction false} PairInOrder(n: nat, q: nat, p: nat, w: int)
    requires p < q && 0 <= w < 2 * n
    ensures PairCells(n, p)[w] in OrderUpTo(n, q)
  {
    assert OrderUpTo(n, q) == OrderUpTo(n, q - 1) + PairCells(n, q - 1);
    if p < q - 1 {
      PairInOrder(n, q - 1, p, w);
    } else {
      assert OrderUpTo(n, q)[|OrderUpTo(n, q - 1)| + w] == PairCells(n, p)[w];
    }
  }

  /** The pair p and the step w at which the zigzag reaches module (r, c), for any column but 6. */
  lemma PairOf(n: nat, r: int, c: int) returns (p: nat, w: int)
    requires n >= 21 && n % 2 == 1 && 0 <= r < n && 0 <= c < n && c != 6
    ensures p < PairCount(n) && 0 <= w < 2 * n && PairCells(n, p)[w] == Cell(r, c)
  {
    var k := if c > 6 then n - 1 - c else n - 2 - c;
    p := k / 2;
    assert k == 2 * p || k == 2 * p + 1;
    PairColumns(n, p);
    assert c == RightCol(n, p) - k % 2;
    var i := if Dir(p) < 0 then n - 1 - r else r;
    w := 2 * i + k % 2;
    assert w / 2 == i && w % 2 == k % 2;
  }

  /**
   * The zigzag visits exactly the modules of the symbol outside column 6,
   * each once: the placement loop skips no module and writes none twice.
   */
  lemma {:induction false} OrderCovers(n: nat, r: int, c: int)
    requires n >= 21 && n % 2 == 1
    ensures Distinct(Order(n)) && Within(Order(n), n)
    ensures Cell(r, c) in Order(n) <==> 0 <= r < n && 0 <= c < n && c != 6
  {
    OrderUpToDistinct(n, PairCount(n));
    OrderUpToWithin(n, PairCount(n));
    if 0 <= r < n && 0 <= c < n && c != 6 {
      var p, w := PairOf(n, r, c);
      PairInOrder(n, PairCount(n), p, w);
    }
  }

  /** Placement leaves every reserved module, and all of column 6, as it was. */
  lemma {:induction false} PlacementKeeps(g: Grid, res: Grid, data: seq<bv8>, r: int, c: int)
    requires |g| >= 21 && |g| % 2 == 1 && Square(g, |g|) && Square(res, |g|)
    requires 0 <= r < |g| && 0 <= c < |g| && (res[r][c] || c == 6)
    ensures Placed(g, res, data, Order(|g|))[r][c] == g[r][c]
  {
    OrderCovers(|g|, r, c);
    PlacedElsewhere(g, res, data, Order(|g|), r, c);
  }

  /** The first i + 1 rows of a pair are the first i and then row i, right column first. */
  lemma PairPrefixStep(n: nat, p: int, i: int)
    requires 0 <= i < n
    ensures PairCells(n, p)[..2 * i + 2] == PairCells(n, p)[..2 * i]
      + [Cell(PairRow(n, p, i), RightCol(n, p)), Cell(PairRow(n, p, i), RightCol(n, p) - 1)]
  {
    var cs := PairCells(n, p);
    assert (2 * i) / 2 == i && (2 * i) % 2 == 0 && (2 * i + 1) / 2 == i && (2 * i + 1) % 2 == 1;
    assert cs[2 * i] == Cell(PairRow(n, p, i), RightCol(n, p));
    assert cs[2 * i + 1] == Cell(PairRow(n, p, i), RightCol(n, p) - 1);
  }

  /** Consecutive pairs run in opposite directions. */
  lemma ParityStep(p: int)
    ensures Dir(p + 1) == -Dir(p)
  {
  }

  /** Concatenation of cell sequences is associative. */
  lemma AppendAssoc(a: seq<Cell>, b: seq<Cell>, c: seq<Cell>)
    ensures a + (b + c) == (a + b) + c
  {
  }

  /** Cells within the symbol, appended to cells within it, stay within it. */
  lemma AppendWithin(a: seq<Cell>, b: seq<Cell>, n: int)
    requires Within(a, n) && Within(b, n)
    ensures Within(a + b, n)
  {
    forall k | 0 <= k < |a + b|
      ensures 0 <= (a + b)[k].r < n && 0 <= (a + b)[k].c < n
    {
      if k >= |a| {
        assert (a + b)[k] == b[k - |a|];
      }
    }
  }

  /**
   * The state of the placement loop after the cells done: m holds g with
   * those cells placed, and a counts the bits placed so far.
   */
  ghost predicate Placing(m: array2<bool>, res: array2<bool>, data: seq<bv8>, a: nat, g: Grid, done: seq<Cell>)
    reads m, res
  {
    GridOf(m) == Placed(g, GridOf(res), data, done) && a == Count(GridOf(res), done)
  }

  /** `t[f][s] || (r[f][s] = e[a >> 3] >> (7 & ~a) & 1, ++a)`: one module of the inner loop. */
  method PlaceModule(m: array2<bool>, res: array2<bool>, data: seq<bv8>, f: int, s: int, a: nat,
                     ghost g: Grid, ghost done: seq<Cell>) returns (a': nat)
    requires m.Length0 == m.Length1 == res.Length0 == res.Length1 && m != res
    requires Placing(m, res, data, a, g, done)
    requires 0 <= f < m.Length0 && 0 <= s < m.Length0
    modifies m
    ensures Placing(m, res, data, a', g, done + [Cell(f, s)])
  {
    ghost var next := done + [Cell(f, s)];
    ghost var rg := GridOf(res);
    ghost var prev := GridOf(m);
    assert next[..|next| - 1] == done;
    assert Free(rg, Cell(f, s)) == !res[f, s];
    if !res[f, s] {
      var bit := DataBit(data, a);
      assert Placed(g, rg, data, next) == Set(prev, f, s, bit);
      m[f, s] := bit;
      a' := a + 1;
      GridOfEq(m, Set(prev, f, s, bit));
    } else {
      assert Placed(g, rg, data, next) == prev;
      a' := a;
    }
  }

  /** `for (s = u; s > u - 2; --s)`: the two modules of row f in the pair whose right column is u. */
  method PlaceRow(m: array2<bool>, res: array2<bool>, data: seq<bv8>, f: int, u: int, a: nat,
                  ghost g: Grid, ghost done: seq<Cell>) returns (a': nat)
    requires m.Length0 == m.Length1 == res.Length0 == res.Length1 && m != res
    requires Placing(m, res, data, a, g, done)
    requires 0 <= f < m.Length0 && 1 <= u < m.Length0
    modifies m
    ensures Placing(m, res, data, a', g, done + [Cell(f, u), Cell(f, u - 1)])
  {
    ghost var cur := done;
    a' := a;
    var s := u;
    while s > u - 2
      invariant u - 2 <= s <= u
      invariant s == u ==> cur == done
      invariant s == u - 1 ==> cur == done + [Cell(f, u)]
      invariant s == u - 2 ==> cur == done + [Cell(f, u), Cell(f, u - 1)]
      invariant Placing(m, res, data, a', g, cur)
    {
      a' := PlaceModule(m, res, data, f, s, a', g, cur);
      AppendAssoc(done, [Cell(f, u)], [Cell(f, u - 1)]);
      cur := cur + [Cell(f, s)];
      s := s - 1;
    }
  }

  /**
   * `for (i = 0; i < n; ++i) { ...; f += o }`: the column pair p, whose right
   * column is u, from row `o < 0 ? n - 1 : 0` in direction o.
   */
  method PlacePair(m: array2<bool>, res: array2<bool>, data: seq<bv8>, u: int, o: int, a: nat,
                   ghost p: int, ghost g: Grid, ghost done: seq<Cell>) returns (a': nat)
    requires m.Length0 == m.Length1 == res.Length0 == res.Length1 && m != res
    requires Placing(m, res, data, a, g, done)
    requires u == RightCol(m.Length0, p) && 1 <= u < m.Length0
    requires o == Dir(p)
    modifies m
    ensures Placing(m, res, data, a', g, done + PairCells(m.Length0, p))
  {
    var n := m.Length0;
    ghost var cs := PairCells(n, p);
    ghost var cur := done;
    var f := if o < 0 then n - 1 else 0;
    a' := a;
    assert done + cs[..0] == done;
    for i := 0 to n
      invariant f == PairRow(n, p, i)
      invariant cur == done + cs[..2 * i] && Placing(m, res, data, a', g, cur)
    {
      ghost var row := [Cell(f, u), Cell(f, u - 1)];
      PairPrefixStep(n, p, i);
      a' := PlaceRow(m, res, data, f, u, a', g, cur);
      assert cs[..2 * i + 2] == cs[..2 * i] + row;
      AppendAssoc(done, cs[..2 * i], row);
      cur := cur + row;
      f := f + o;
    }
    assert cs[..2 * n] == cs;
  }

  /**
   * One pass of the outer loop: steps `u` off column 6, fills pair p and
   * turns round (`o = -o`, `u -= 2`).
   */
  method PlaceNextPair(m: array2<bool>, res: array2<bool>, data: seq<bv8>, u: int, o: int, a: nat,
                       ghost p: nat, ghost g: Grid) returns (u': int, o': int, a': nat)
    requires m.Length0 == m.Length1 == res.Length0 == res.Length1 && m != res
    requires m.Length0 >= 21 && m.Length0 % 2 == 1
    requires p < PairCount(m.Length0) && u == Head(m.Length0, p)
    requires o == Dir(p)
    requires Placing(m, res, data, a, g, OrderUpTo(m.Length0, p))
    modifies m
    ensures u' == Head(m.Length0, p + 1) && o' == Dir(p + 1)
    ensures Placing(m, res, data, a', g, OrderUpTo(m.Length0, p + 1))
  {
    var n := m.Length0;
    HeadStep(n, p);
    PairColumns(n, p);
    var v := u;
    if v == 6 {
      v := v - 1;
    }
    a' := PlacePair(m, res, data, v, o, a, p, g, OrderUpTo(n, p));
    ParityStep(p);
    o' := -o;
    u' := v - 2;
  }

  /**
   * The placement function of `L`: walks the column pairs from the right
   * edge (`u = n - 1; u >= 0; u -= 2`, stepping over column 6), alternating
   * direction, and puts the stream's bits into the modules that are not
   * reserved. Reserved modules keep what they held.
   */
  method PlaceData(m: array2<bool>, res: array2<bool>, data: seq<bv8>)
    requires m.Length0 == m.Length1 == res.Length0 == res.Length1 && m != res
    requires m.Length0 >= 21 && m.Length0 % 2 == 1
    modifies m
    ensures GridOf(m) == Placed(old(GridOf(m)), GridOf(res), data, Order(m.Length0))
  {
    ghost var g := GridOf(m);
    var n := m.Length0;
    var a: nat := 0;
    var o := -1;
    var u := n - 1;
    ghost var p: nat := 0;
    while u >= 0
      invariant p <= PairCount(n) && u == Head(n, p)
      invariant o == Dir(p)
      invariant Placing(m, res, data, a, g, OrderUpTo(n, p))
      decreases u
    {
      HeadStep(n, p);
      u, o, a := PlaceNextPair(m, res, data, u, o, a, p, g);
      p := p + 1;
    }
    HeadStep(n, p);
    assert p == PairCount(n);
    assert Order(n) == OrderUpTo(n, p);
  }
}
