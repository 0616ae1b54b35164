/**
 * Block interleaving of the QR encoder in main/static/js/qr-code.js
 * (section 7.6 of ISO/IEC 18004): the inner function `f(data, t, gen)` of
 * `L` splits the data codewords into t blocks, the short ones first and
 * each of the others one codeword longer, computes the Reed-Solomon
 * codewords of every block, and emits the data codewords column by column
 * across the blocks, then the last codeword of each long block, then the
 * error correction codewords column by column.
 */
module QrInterleave {
  import opened QrBits
  import opened QrReedSolomon

  /** `data.length / t | 0`: the codewords of a short block. */
  function ShortLen(len: nat, t: nat): nat
    requires t >= 1
  {
    len / t
  }

  /** `t - data.length % t`: the number of short blocks. */
  function ShortBlocks(len: nat, t: nat): (u: nat)
    requires t >= 1
    ensures 1 <= u <= t
  {
    t - len % t
  }

  /** `n[l]`: where block l starts. */
  function Offset(len: nat, t: nat, l: nat): nat
    requires t >= 1
  {
    var u := ShortBlocks(len, t);
    ShortLen(len, t) * l + (if l > u then l - u else 0)
  }

  /** Short blocks have ShortLen codewords, the others one more. */
  function BlockLen(len: nat, t: nat, l: nat): nat
    requires t >= 1
  {
    if l < ShortBlocks(len, t) then ShortLen(len, t) else ShortLen(len, t) + 1
  }

  /** The data is ShortLen codewords per block plus one for each long block. */
  lemma Shape(len: nat, t: nat)
    requires t >= 1
    ensures len == ShortLen(len, t) * t + (t - ShortBlocks(len, t))
  {
  }

  /** Each block starts where the one before it ends. */
  lemma OffsetStep(len: nat, t: nat, l: nat)
    requires t >= 1
    ensures Offset(len, t, l + 1) == Offset(len, t, l) + BlockLen(len, t, l)
  {
    var a := ShortLen(len, t);
    assert a * (l + 1) == a * l + a;
  }

  /** The blocks end with the data. */
  lemma OffsetEnd(len: nat, t: nat)
    requires t >= 1
    ensures Offset(len, t, t) == len
  {
    Shape(len, t);
  }

  lemma OffsetMonotone(len: nat, t: nat, l: nat, m: nat)
    requires t >= 1 && l <= m
    ensures Offset(len, t, l) <= Offset(len, t, m)
  {
    var a := ShortLen(len, t);
    MulNonNegative(a, m - l);
    assert a * m == a * l + a * (m - l);
  }

  /** Block l lies within the data. */
  lemma BlockWithin(len: nat, t: nat, l: nat)
    requires t >= 1 && l < t
    ensures Offset(len, t, l) + BlockLen(len, t, l) == Offset(len, t, l + 1) <= len
  {
    OffsetStep(len, t, l);
    OffsetMonotone(len, t, l + 1, t);
    OffsetEnd(len, t);
  }

  /** `data.slice(n[l], n[l + 1])`: the data codewords of block l. */
  function Block(data: seq<bv8>, t: nat, l: nat): (r: seq<bv8>)
    requires t >= 1 && l < t
    ensures |r| == BlockLen(|data|, t, l)
  {
    BlockWithin(|data|, t, l);
    data[Offset(|data|, t, l)..Offset(|data|, t, l + 1)]
  }

  /** The blocks have ShortLen or ShortLen + 1 codewords, the short ones first, and `len % t` of them are long. */
  lemma BlockSizes(data: seq<bv8>, t: nat)
    requires t >= 1
    ensures forall l :: 0 <= l < t ==> |Block(data, t, l)| == if l < t - |data| % t then |data| / t else |data| / t + 1
  {
  }

  /** The error correction codewords of each block, `x(block, gen)`. */
  function BlockEcc(exp: seq<bv8>, log: seq<int>, data: seq<bv8>, t: nat, gen: seq<int>): (r: seq<seq<bv8>>)
    requires |log| == 256 && t >= 1
    ensures |r| == t && forall l :: 0 <= l < t ==> |r[l]| == |gen|
  {
    seq(t, l requires 0 <= l < t => Remainder(exp, log, Block(data, t, l), gen))
  }

  /** Each block followed by its error correction codewords is a Reed-Solomon codeword. */
  lemma BlocksAreCodewords(exp: seq<bv8>, log: seq<int>, data: seq<bv8>, t: nat, gen: seq<int>, l: nat)
    requires |log| == 256 && t >= 1 && l < t
    ensures var b := Block(data, t, l);
      Divide(exp, log, b + BlockEcc(exp, log, data, t, gen)[l], 0, |b|, gen)[|b|..] == Zeros(|gen|)
  {
    RemainderOfCodewordIsZero(exp, log, Block(data, t, l), gen);
  }

  /**
   * The data codeword sent to position p < len of the interleaved stream:
   * in the first ShortLen columns, codeword p / t of block p % t; after
   * them, the last codeword of the long blocks in turn.
   */
  function SourceOf(len: nat, t: nat, p: nat): nat
    requires t >= 1
  {
    var a := ShortLen(len, t);
    if p < a * t then Offset(len, t, p % t) + p / t
    else Offset(len, t, ShortBlocks(len, t) + (p - a * t)) + a
  }

  lemma SourceOfBound(len: nat, t: nat, p: nat)
    requires t >= 1 && p < len
    ensures SourceOf(len, t, p) < len
  {
    var a := ShortLen(len, t);
    var u := ShortBlocks(len, t);
    Shape(len, t);
    if p < a * t {
      var l := p % t;
      DivBelow(p, t, a);
      BlockWithin(len, t, l);
    } else {
      var l := u + (p - a * t);
      BlockWithin(len, t, l);
    }
  }

  /** The block that data codeword i belongs to. */
  function BlockOf(len: nat, t: nat, i: nat): nat
    requires t >= 1
  {
    var a := ShortLen(len, t);
    var u := ShortBlocks(len, t);
    if i < u * a then i / a else u + (i - u * a) / (a + 1)
  }

  /** Data codeword i lies in block BlockOf(i). */
  lemma BlockOfBounds(len: nat, t: nat, i: nat)
    requires t >= 1 && i < len
    ensures BlockOf(len, t, i) < t
    ensures Offset(len, t, BlockOf(len, t, i)) <= i < Offset(len, t, BlockOf(len, t, i)) + BlockLen(len, t, BlockOf(len, t, i))
  {
    var a := ShortLen(len, t);
    var u := ShortBlocks(len, t);
    if i < u * a {
      InShortBlock(len, t, i, a, u);
    } else {
      InLongBlock(len, t, i, a, u);
    }
  }

  lemma InShortBlock(len: nat, t: nat, i: nat, a: nat, u: nat)
    requires t >= 1 && a == ShortLen(len, t) && u == ShortBlocks(len, t) && i < u * a
    ensures a >= 1 && BlockOf(len, t, i) == i / a < u
    ensures Offset(len, t, i / a) == a * (i / a) <= i < a * (i / a) + a
  {
    DivBelow(i, a, u);
    assert i == a * (i / a) + i % a;
  }

  lemma InLongBlock(len: nat, t: nat, i: nat, a: nat, u: nat)
    requires t >= 1 && a == ShortLen(len, t) && u == ShortBlocks(len, t) && u * a <= i < len
    ensures BlockOf(len, t, i) == u + (i - u * a) / (a + 1) < t
    ensures Offset(len, t, BlockOf(len, t, i)) <= i < Offset(len, t, BlockOf(len, t, i)) + a + 1
  {
    var x := i - u * a;
    var q := x / (a + 1);
    Shape(len, t);
    TailSize(len, t, a, u);
    DivBelow(x, a + 1, t - u);
    LongOffset(len, t, a, u, q);
    DivParts(x, a + 1);
  }

  /** The long blocks hold len - u * a codewords, a + 1 each. */
  lemma TailSize(len: nat, t: nat, a: nat, u: nat)
    requires u <= t && len == a * t + (t - u)
    ensures len - u * a == (a + 1) * (t - u)
  {
    assert a * t == a * u + a * (t - u);
  }

  /** Long block u + q starts after the u short blocks and q long ones. */
  lemma LongOffset(len: nat, t: nat, a: nat, u: nat, q: nat)
    requires t >= 1 && a == ShortLen(len, t) && u == ShortBlocks(len, t)
    ensures Offset(len, t, u + q) == a * u + (a + 1) * q
  {
    assert a * (u + q) == a * u + a * q;
  }

  lemma DivParts(x: int, d: int)
    requires d >= 1
    ensures x == d * (x / d) + x % d && 0 <= x % d < d
  {
  }

  /** The position of data codeword i in the interleaved stream. */
  function PosOf(len: nat, t: nat, i: nat): nat
    requires t >= 1 && i < len
  {
    BlockOfBounds(len, t, i);
    var a := ShortLen(len, t);
    var l := BlockOf(len, t, i);
    var f := i - Offset(len, t, l);
    if f < a then f * t + l else a * t + (l - ShortBlocks(len, t))
  }

  /** Interleaving sends data codeword i to a position that gives back i. */
  lemma SourceOfPosOf(len: nat, t: nat, i: nat)
    requires t >= 1 && i < len
    ensures PosOf(len, t, i) < len
    ensures SourceOf(len, t, PosOf(len, t, i)) == i
  {
    BlockOfBounds(len, t, i);
    var a := ShortLen(len, t);
    var u := ShortBlocks(len, t);
    var l := BlockOf(len, t, i);
    var f := i - Offset(len, t, l);
    var p := PosOf(len, t, i);
    Shape(len, t);
    if f < a {
      PlaceBelow(f, l, a, t);
      DivUnique(p, t, f, l);
    } else {
      assert l >= u && f == a;
    }
  }

  /** Every position below len holds the data codeword of its own position. */
  lemma PosOfSourceOf(len: nat, t: nat, p: nat)
    requires t >= 1 && p < len
    ensures SourceOf(len, t, p) < len
    ensures PosOf(len, t, SourceOf(len, t, p)) == p
  {
    SourceOfBound(len, t, p);
    var a := ShortLen(len, t);
    if p < a * t {
      InColumns(len, t, p, a);
    } else {
      InTail(len, t, p, a);
    }
  }

  /** A position in the first ShortLen columns holds codeword p / t of block p % t. */
  lemma InColumns(len: nat, t: nat, p: nat, a: nat)
    requires t >= 1 && a == ShortLen(len, t) && p < a * t
    ensures SourceOf(len, t, p) == Offset(len, t, p % t) + p / t < len
    ensures PosOf(len, t, SourceOf(len, t, p)) == p
  {
    DivBelow(p, t, a);
    assert p == (p / t) * t + p % t;
    PosOfColumn(len, t, p % t, p / t, SourceOf(len, t, p));
  }

  /** A position after the columns holds the last codeword of long block ShortBlocks + (p - a * t). */
  lemma InTail(len: nat, t: nat, p: nat, a: nat)
    requires t >= 1 && a == ShortLen(len, t) && a * t <= p < len
    ensures SourceOf(len, t, p) == Offset(len, t, ShortBlocks(len, t) + (p - a * t)) + a < len
    ensures PosOf(len, t, SourceOf(len, t, p)) == p
  {
    Shape(len, t);
    PosOfTail(len, t, ShortBlocks(len, t) + (p - a * t), SourceOf(len, t, p));
  }

  /** The position of codeword f < ShortLen of block l: column f, row l. */
  lemma PosOfColumn(len: nat, t: nat, l: nat, f: nat, i: nat)
    requires t >= 1 && l < t && f < ShortLen(len, t) && i == Offset(len, t, l) + f
    ensures i < len
    ensures PosOf(len, t, i) == f * t + l
  {
    BlockWithin(len, t, l);
    BlockOfOffset(len, t, l, f);
  }

  /** The position of the last codeword of long block l: after the columns, in block order. */
  lemma PosOfTail(len: nat, t: nat, l: nat, i: nat)
    requires t >= 1 && ShortBlocks(len, t) <= l < t && i == Offset(len, t, l) + ShortLen(len, t)
    ensures i < len
    ensures PosOf(len, t, i) == ShortLen(len, t) * t + (l - ShortBlocks(len, t))
  {
    BlockWithin(len, t, l);
    BlockOfOffset(len, t, l, ShortLen(len, t));
  }

  /** Codeword f of block l is data codeword Offset(l) + f, and BlockOf finds block l for it. */
  lemma BlockOfOffset(len: nat, t: nat, l: nat, f: nat)
    requires t >= 1 && l < t && f < BlockLen(len, t, l)
    ensures BlockOf(len, t, Offset(len, t, l) + f) == l
  {
    var a := ShortLen(len, t);
    var u := ShortBlocks(len, t);
    if l < u {
      ShortBlockOf(len, t, a, u, l, f);
    } else {
      LongOffset(len, t, a, u, l - u);
      LongBlockOf(len, t, a, u, l - u, f);
    }
  }

  lemma ShortBlockOf(len: nat, t: nat, a: nat, u: nat, l: nat, f: nat)
    requires t >= 1 && a == ShortLen(len, t) && u == ShortBlocks(len, t) && l < u && f < a
    ensures BlockOf(len, t, a * l + f) == l
  {
    PlaceBelow(l, f, u, a);
    DivUnique(a * l + f, a, l, f);
  }

  lemma LongBlockOf(len: nat, t: nat, a: nat, u: nat, q: nat, f: nat)
    requires t >= 1 && a == ShortLen(len, t) && u == ShortBlocks(len, t) && f < a + 1
    ensures BlockOf(len, t, a * u + (a + 1) * q + f) == u + q
  {
    var i := a * u + (a + 1) * q + f;
    MulNonNegative(a + 1, q);
    assert i - u * a == (a + 1) * q + f;
    DivUnique(i - u * a, a + 1, q, f);
  }

  /** The interleaved symbol stream of the data and the per-block error correction codewords. */
  function Interleaved(data: seq<bv8>, t: nat, ecc: seq<seq<bv8>>, e: nat): (s: seq<bv8>)
    requires t >= 1 && |ecc| == t && forall l :: 0 <= l < t ==> |ecc[l]| == e
    ensures |s| == |data| + t * e
  {
    seq(|data| + t * e, p requires 0 <= p < |data| + t * e => InterleavedAt(data, t, ecc, e, p))
  }

  /** Position p of the stream: data codeword SourceOf(p), or codeword (p - len) / t of the error correction of block (p - len) % t. */
  function InterleavedAt(data: seq<bv8>, t: nat, ecc: seq<seq<bv8>>, e: nat, p: nat): bv8
    requires t >= 1 && |ecc| == t && forall l :: 0 <= l < t ==> |ecc[l]| == e
    requires p < |data| + t * e
  {
    if p < |data| then
      SourceOfBound(|data|, t, p);
      data[SourceOf(|data|, t, p)]
    else
      DivBelow(p - |data|, t, e);
      ecc[(p - |data|) % t][(p - |data|) / t]
  }

  /** De-interleaving: the data codewords read back from their positions. */
  function Deinterleave(s: seq<bv8>, len: nat, t: nat): (r: seq<bv8>)
    requires t >= 1 && len <= |s|
    ensures |r| == len
  {
    seq(len, i requires 0 <= i < len => (SourceOfPosOf(len, t, i); s[PosOf(len, t, i)]))
  }

  /** Reading the data back from the interleaved stream gives the data. */
  lemma DeinterleaveRoundTrip(data: seq<bv8>, t: nat, ecc: seq<seq<bv8>>, e: nat)
    requires t >= 1 && |ecc| == t && forall l :: 0 <= l < t ==> |ecc[l]| == e
    ensures Deinterleave(Interleaved(data, t, ecc, e), |data|, t) == data
  {
    var s := Interleaved(data, t, ecc, e);
    forall i | 0 <= i < |data|
      ensures Deinterleave(s, |data|, t)[i] == data[i]
    {
      SourceOfPosOf(|data|, t, i);
    }
  }

  /** The error correction codeword f of block l is at position len + f * t + l. */
  lemma InterleavedEcc(data: seq<bv8>, t: nat, ecc: seq<seq<bv8>>, e: nat, l: nat, f: nat)
    requires t >= 1 && |ecc| == t && forall j :: 0 <= j < t ==> |ecc[j]| == e
    requires l < t && f < e
    ensures |data| + f * t + l < |Interleaved(data, t, ecc, e)|
    ensures Interleaved(data, t, ecc, e)[|data| + f * t + l] == ecc[l][f]
  {
    PlaceBelow(f, l, e, t);
    DivUnique(f * t + l, t, f, l);
  }

  /** The stream is right up to its current length. */
  ghost predicate StreamPrefix(s: seq<bv8>, data: seq<bv8>, t: nat, ecc: seq<seq<bv8>>, e: nat)
    requires t >= 1 && |ecc| == t && forall l :: 0 <= l < t ==> |ecc[l]| == e
  {
    |s| <= |data| + t * e && forall p :: 0 <= p < |s| ==> s[p] == InterleavedAt(data, t, ecc, e, p)
  }

  lemma PushStream(s: seq<bv8>, x: bv8, data: seq<bv8>, t: nat, ecc: seq<seq<bv8>>, e: nat)
    requires t >= 1 && |ecc| == t && forall l :: 0 <= l < t ==> |ecc[l]| == e
    requires StreamPrefix(s, data, t, ecc, e) && |s| < |data| + t * e
    requires x == InterleavedAt(data, t, ecc, e, |s|)
    ensures StreamPrefix(s + [x], data, t, ecc, e)
  {
  }

  /** Column f of the data: position f * t + l holds codeword f of block l. */
  lemma DataColumn(data: seq<bv8>, t: nat, ecc: seq<seq<bv8>>, e: nat, f: nat, l: nat, p: nat)
    requires t >= 1 && |ecc| == t && forall j :: 0 <= j < t ==> |ecc[j]| == e
    requires f < ShortLen(|data|, t) && l < t && p == f * t + l
    ensures p < |data| && Offset(|data|, t, l) + f < |data|
    ensures InterleavedAt(data, t, ecc, e, p) == data[Offset(|data|, t, l) + f]
  {
    var a := ShortLen(|data|, t);
    PlaceBelow(f, l, a, t);
    Shape(|data|, t);
    DivUnique(p, t, f, l);
    BlockWithin(|data|, t, l);
  }

  /** After the columns, position a * t + (l - u) holds the last codeword of long block l. */
  lemma DataTail(data: seq<bv8>, t: nat, ecc: seq<seq<bv8>>, e: nat, l: nat, p: nat)
    requires t >= 1 && |ecc| == t && forall j :: 0 <= j < t ==> |ecc[j]| == e
    requires ShortBlocks(|data|, t) <= l < t && p == ShortLen(|data|, t) * t + (l - ShortBlocks(|data|, t))
    ensures p < |data| && 1 <= Offset(|data|, t, l + 1) <= |data|
    ensures InterleavedAt(data, t, ecc, e, p) == data[Offset(|data|, t, l + 1) - 1]
  {
    Shape(|data|, t);
    BlockWithin(|data|, t, l);
  }

  /** Position len + f * t + l holds error correction codeword f of block l. */
  lemma EccColumn(data: seq<bv8>, t: nat, ecc: seq<seq<bv8>>, e: nat, f: nat, l: nat, p: nat)
    requires t >= 1 && |ecc| == t && forall j :: 0 <= j < t ==> |ecc[j]| == e
    requires f < e && l < t && p == |data| + f * t + l
    ensures p < |data| + t * e
    ensures InterleavedAt(data, t, ecc, e, p) == ecc[l][f]
  {
    PlaceBelow(f, l, e, t);
    DivUnique(f * t + l, t, f, l);
  }

  lemma MulStep(f: nat, t: nat)
    ensures (f + 1) * t == f * t + t
  {
  }

  /** The first loops of `f`: `n[l]` for l from 0 to t. */
  method BlockOffsets(len: nat, t: nat) returns (n: seq<nat>)
    requires t >= 1
    ensures |n| == t + 1 && forall j :: 0 <= j <= t ==> n[j] == Offset(len, t, j)
  {
    var a := len / t;
    var u := t - len % t;
    n := [];
    var o := 0;
    var f := 0;
    while f < u
      invariant 0 <= f <= u && |n| == f && o == Offset(len, t, f)
      invariant forall j :: 0 <= j < f ==> n[j] == Offset(len, t, j)
    {
      OffsetStep(len, t, f);
      n := n + [o];
      o := o + a;
      f := f + 1;
    }
    while f < t
      invariant u <= f <= t && |n| == f && o == Offset(len, t, f)
      invariant forall j :: 0 <= j < f ==> n[j] == Offset(len, t, j)
    {
      OffsetStep(len, t, f);
      n := n + [o];
      o := o + a + 1;
      f := f + 1;
    }
    n := n + [o];
  }

  /** The error correction codewords of the blocks computed so far. */
  ghost predicate EccPrefix(i: seq<seq<bv8>>, exp: seq<bv8>, log: seq<int>, data: seq<bv8>, t: nat, gen: seq<int>)
    requires |log| == 256 && t >= 1
  {
    |i| <= t && forall j :: 0 <= j < |i| ==> i[j] == BlockEcc(exp, log, data, t, gen)[j]
  }

  lemma PushEcc(i: seq<seq<bv8>>, r: seq<bv8>, exp: seq<bv8>, log: seq<int>, data: seq<bv8>, t: nat, gen: seq<int>, lo: nat, hi: nat)
    requires |log| == 256 && t >= 1 && EccPrefix(i, exp, log, data, t, gen) && |i| < t
    requires lo == Offset(|data|, t, |i|) && hi == Offset(|data|, t, |i| + 1)
    requires lo <= hi <= |data| && r == Remainder(exp, log, data[lo..hi], gen)
    ensures EccPrefix(i + [r], exp, log, data, t, gen)
  {
    var l := |i|;
    var ecc := BlockEcc(exp, log, data, t, gen);
    assert Block(data, t, l) == data[lo..hi];
    assert ecc[l] == r;
    var i' := i + [r];
    forall j | 0 <= j < |i'|
      ensures i'[j] == ecc[j]
    {
      if j < l {
        assert i'[j] == i[j];
      }
    }
  }

  /** `i.push(x(data.slice(n[l], n[l + 1]), gen))` for each block l. */
  method BlockCodes(exp: seq<bv8>, log: seq<int>, data: seq<bv8>, t: nat, gen: seq<int>, n: seq<nat>) returns (i: seq<seq<bv8>>)
    requires |log| == 256 && t >= 1
    requires |n| == t + 1 && forall j :: 0 <= j <= t ==> n[j] == Offset(|data|, t, j)
    ensures i == BlockEcc(exp, log, data, t, gen)
  {
    i := [];
    for f := 0 to t
      invariant |i| == f && EccPrefix(i, exp, log, data, t, gen)
    {
      BlockWithin(|data|, t, f);
      var r := RsRemainder(exp, log, data[n[f]..n[f + 1]], gen);
      PushEcc(i, r, exp, log, data, t, gen, n[f], n[f + 1]);
      i := i + [r];
    }
  }

  /**
   * `f(data, t, gen)`: the block offsets `n`, the error correction
   * codewords `i` of each block, then the stream `s`.
   */
  method InterleaveBlocks(exp: seq<bv8>, log: seq<int>, data: seq<bv8>, t: nat, gen: seq<int>) returns (s: seq<bv8>)
    requires |log| == 256 && t >= 1
    ensures s == Interleaved(data, t, BlockEcc(exp, log, data, t, gen), |gen|)
  {
    var n := BlockOffsets(|data|, t);
    var i := BlockCodes(exp, log, data, t, gen, n);
    s := Stream(data, t, i, |gen|, n);
  }

  /** The loops of `f` that emit the data columns, the tails of the long blocks and the error correction columns. */
  method Stream(data: seq<bv8>, t: nat, i: seq<seq<bv8>>, e: nat, n: seq<nat>) returns (s: seq<bv8>)
    requires t >= 1 && |i| == t && forall l :: 0 <= l < t ==> |i[l]| == e
    requires |n| == t + 1 && forall j :: 0 <= j <= t ==> n[j] == Offset(|data|, t, j)
    ensures s == Interleaved(data, t, i, e)
  {
    s := DataColumns(data, t, i, e, n);
    s := DataTails(data, t, i, e, n, s);
    s := EccColumns(data, t, i, e, s);
    StreamComplete(s, data, t, i, e);
  }

  lemma StreamComplete(s: seq<bv8>, data: seq<bv8>, t: nat, ecc: seq<seq<bv8>>, e: nat)
    requires t >= 1 && |ecc| == t && forall l :: 0 <= l < t ==> |ecc[l]| == e
    requires StreamPrefix(s, data, t, ecc, e) && |s| == |data| + t * e
    ensures s == Interleaved(data, t, ecc, e)
  {
  }

  /** `s.push(data[n[l] + f])` for each column f below ShortLen and each block l. */
  method DataColumns(data: seq<bv8>, t: nat, i: seq<seq<bv8>>, e: nat, n: seq<nat>) returns (s: seq<bv8>)
    requires t >= 1 && |i| == t && forall l :: 0 <= l < t ==> |i[l]| == e
    requires |n| == t + 1 && forall j :: 0 <= j <= t ==> n[j] == Offset(|data|, t, j)
    ensures |s| == ShortLen(|data|, t) * t && StreamPrefix(s, data, t, i, e)
  {
    var a := |data| / t;
    s := [];
    for f := 0 to a
      invariant |s| == f * t && StreamPrefix(s, data, t, i, e)
    {
      s := DataColumnOf(data, t, i, e, n, f, s);
      MulStep(f, t);
    }
  }

  /** Column f: `s.push(data[n[l] + f])` for each block l. */
  method DataColumnOf(data: seq<bv8>, t: nat, i: seq<seq<bv8>>, e: nat, n: seq<nat>, f: nat, s0: seq<bv8>) returns (s: seq<bv8>)
    requires t >= 1 && |i| == t && forall l :: 0 <= l < t ==> |i[l]| == e
    requires |n| == t + 1 && forall j :: 0 <= j <= t ==> n[j] == Offset(|data|, t, j)
    requires f < ShortLen(|data|, t) && |s0| == f * t && StreamPrefix(s0, data, t, i, e)
    ensures |s| == f * t + t && StreamPrefix(s, data, t, i, e)
  {
    s := s0;
    for l := 0 to t
      invariant |s| == |s0| + l && StreamPrefix(s, data, t, i, e)
    {
      DataColumn(data, t, i, e, f, l, |s|);
      PushStream(s, data[n[l] + f], data, t, i, e);
      s := s + [data[n[l] + f]];
    }
  }

  /** `s.push(data[n[l + 1] - 1])` for each long block l. */
  method DataTails(data: seq<bv8>, t: nat, i: seq<seq<bv8>>, e: nat, n: seq<nat>, s0: seq<bv8>) returns (s: seq<bv8>)
    requires t >= 1 && |i| == t && forall l :: 0 <= l < t ==> |i[l]| == e
    requires |n| == t + 1 && forall j :: 0 <= j <= t ==> n[j] == Offset(|data|, t, j)
    requires |s0| == ShortLen(|data|, t) * t && StreamPrefix(s0, data, t, i, e)
    ensures |s| == |data| && StreamPrefix(s, data, t, i, e)
  {
    var a := |data| / t;
    var u := t - |data| % t;
    s := s0;
    for l := u to t
      invariant |s| == a * t + (l - u) && StreamPrefix(s, data, t, i, e)
    {
      DataTail(data, t, i, e, l, |s|);
      PushStream(s, data[n[l + 1] - 1], data, t, i, e);
      s := s + [data[n[l + 1] - 1]];
    }
    Shape(|data|, t);
  }

  /** `s.push(i[l][f])` for each error correction column f and each block l. */
  method EccColumns(data: seq<bv8>, t: nat, i: seq<seq<bv8>>, e: nat, s0: seq<bv8>) returns (s: seq<bv8>)
    requires t >= 1 && |i| == t && forall l :: 0 <= l < t ==> |i[l]| == e
    requires |s0| == |data| && StreamPrefix(s0, data, t, i, e)
    ensures |s| == |data| + t * e && StreamPrefix(s, data, t, i, e)
  {
    s := s0;
    for f := 0 to e
      invariant |s| == |data| + f * t && StreamPrefix(s, data, t, i, e)
    {
      s := EccColumnOf(data, t, i, e, f, s);
      MulStep(f, t);
    }
  }

  /** Error correction column f: `s.push(i[l][f])` for each block l. */
  method EccColumnOf(data: seq<bv8>, t: nat, i: seq<seq<bv8>>, e: nat, f: nat, s0: seq<bv8>) returns (s: seq<bv8>)
    requires t >= 1 && |i| == t && forall l :: 0 <= l < t ==> |i[l]| == e
    requires f < e && |s0| == |data| + f * t && StreamPrefix(s0, data, t, i, e)
    ensures |s| == |data| + f * t + t && StreamPrefix(s, data, t, i, e)
  {
    s := s0;
    for l := 0 to t
      invariant |s| == |s0| + l && StreamPrefix(s, data, t, i, e)
    {
      EccColumn(data, t, i, e, f, l, |s|);
      PushStream(s, i[l][f], data, t, i, e);
      s := s + [i[l][f]];
    }
  }
}
