/**
 * The Reed-Solomon error correction codewords of section 7.5.2 of
 * ISO/IEC 18004, computed as the encoder `x(data, gen)` of
 * main/static/js/qr-code.js does: the data codewords followed by one zero per
 * generator coefficient are divided, position by position, by the monic
 * generator polynomial, and the last `gen.length` positions are the remainder.
 */
module QrReedSolomon {
  import opened QrField

  function Zeros(n: nat): (r: seq<bv8>)
    ensures |r| == n && forall j :: 0 <= j < n ==> r[j] == 0
  {
    seq(n, _ => 0)
  }

  /**
   * One division step at position f: when `work[f]` is 2^i, the generator
   * times 2^i is added to the positions after f. A zero `work[f]` (logarithm
   * -1) leaves the work unchanged.
   */
  function Eliminate(exp: seq<bv8>, log: seq<int>, work: seq<bv8>, f: nat, gen: seq<int>): (r: seq<bv8>)
    requires |log| == 256 && f + |gen| < |work|
    ensures |r| == |work|
    ensures forall j :: 0 <= j <= f || f + |gen| < j < |work| ==> r[j] == work[j]
  {
    var i := log[work[f] as int];
    if i < 0 then work else AddMultiple(exp, work, f + 1, i, gen)
  }

  /** The work with 2^i times the generator added at positions start .. start + |gen| - 1. */
  function AddMultiple(exp: seq<bv8>, work: seq<bv8>, start: nat, i: int, gen: seq<int>): (r: seq<bv8>)
    requires start + |gen| <= |work|
    ensures |r| == |work|
    ensures forall j :: 0 <= j < start || start + |gen| <= j < |work| ==> r[j] == work[j]
  {
    seq(|work|, j requires 0 <= j < |work| =>
      if start <= j < start + |gen| then work[j] ^ ExpAt(exp, JsRem(i + gen[j - start], 255)) else work[j])
  }

  /** The division steps at positions f .. n-1. */
  function Divide(exp: seq<bv8>, log: seq<int>, work: seq<bv8>, f: nat, n: nat, gen: seq<int>): (r: seq<bv8>)
    requires |log| == 256 && n + |gen| == |work|
    ensures |r| == |work|
    decreases n - f
  {
    if f >= n then work else Divide(exp, log, Eliminate(exp, log, work, f, gen), f + 1, n, gen)
  }

  /** The error correction codewords of `data` for the generator `gen`. */
  function Remainder(exp: seq<bv8>, log: seq<int>, data: seq<bv8>, gen: seq<int>): (r: seq<bv8>)
    requires |log| == 256
    ensures |r| == |gen|
  {
    Divide(exp, log, data + Zeros(|gen|), 0, |data|, gen)[|data|..]
  }

  function XorSeq(a: seq<bv8>, b: seq<bv8>): (r: seq<bv8>)
    requires |a| == |b|
    ensures |r| == |a| && forall j :: 0 <= j < |a| ==> r[j] == a[j] ^ b[j]
  {
    seq(|a|, j requires 0 <= j < |a| => a[j] ^ b[j])
  }

  lemma XorCancel(a: bv8, b: bv8, m: bv8)
    ensures (a ^ m) ^ (b ^ m) == a ^ b
  {
  }

  /**
   * Two works that agree before position n are divided with the same
   * multipliers, so their prefixes stay equal and their tails keep the same
   * difference.
   */
  lemma {:induction false} DivideTailDifference(exp: seq<bv8>, log: seq<int>, w1: seq<bv8>, w2: seq<bv8>, f: nat, n: nat, gen: seq<int>)
    requires |log| == 256 && n + |gen| == |w1| == |w2|
    requires w1[..n] == w2[..n]
    ensures Divide(exp, log, w1, f, n, gen)[..n] == Divide(exp, log, w2, f, n, gen)[..n]
    ensures XorSeq(Divide(exp, log, w1, f, n, gen)[n..], Divide(exp, log, w2, f, n, gen)[n..]) == XorSeq(w1[n..], w2[n..])
    decreases n - f
  {
    if f < n {
      var e1 := Eliminate(exp, log, w1, f, gen);
      var e2 := Eliminate(exp, log, w2, f, gen);
      EliminatePrefix(exp, log, w1, w2, f, n, gen);
      EliminateTail(exp, log, w1, w2, f, n, gen);
      DivideTailDifference(exp, log, e1, e2, f + 1, n, gen);
    }
  }

  /** One step on two works that agree before n keeps them agreeing there. */
  lemma EliminatePrefix(exp: seq<bv8>, log: seq<int>, w1: seq<bv8>, w2: seq<bv8>, f: nat, n: nat, gen: seq<int>)
    requires |log| == 256 && n + |gen| == |w1| == |w2| && f < n
    requires w1[..n] == w2[..n]
    ensures w1[f] == w2[f]
    ensures Eliminate(exp, log, w1, f, gen)[..n] == Eliminate(exp, log, w2, f, gen)[..n]
  {
    var e1 := Eliminate(exp, log, w1, f, gen);
    var e2 := Eliminate(exp, log, w2, f, gen);
    assert w1[f] == w2[f] by { assert w1[..n][f] == w2[..n][f]; }
    forall j | 0 <= j < n
      ensures e1[j] == e2[j]
    {
      assert w1[..n][j] == w2[..n][j];
    }
  }

  /** One step with the same multiplier on both works keeps the difference of their tails. */
  lemma EliminateTail(exp: seq<bv8>, log: seq<int>, w1: seq<bv8>, w2: seq<bv8>, f: nat, n: nat, gen: seq<int>)
    requires |log| == 256 && n + |gen| == |w1| == |w2| && f < n
    requires w1[f] == w2[f]
    ensures XorSeq(Eliminate(exp, log, w1, f, gen)[n..], Eliminate(exp, log, w2, f, gen)[n..]) == XorSeq(w1[n..], w2[n..])
  {
    var e1 := Eliminate(exp, log, w1, f, gen);
    var e2 := Eliminate(exp, log, w2, f, gen);
    var i := log[w1[f] as int];
    forall j | n <= j < |w1|
      ensures e1[j] ^ e2[j] == w1[j] ^ w2[j]
    {
      if i >= 0 && j <= f + |gen| {
        XorCancel(w1[j], w2[j], ExpAt(exp, JsRem(i + gen[j - f - 1], 255)));
      }
    }
    assert XorSeq(e1[n..], e2[n..]) == XorSeq(w1[n..], w2[n..]);
  }

  /**
   * The codeword property: dividing the data followed by its error
   * correction codewords leaves remainder zero.
   */
  lemma RemainderOfCodewordIsZero(exp: seq<bv8>, log: seq<int>, data: seq<bv8>, gen: seq<int>)
    requires |log| == 256
    ensures Divide(exp, log, data + Remainder(exp, log, data, gen), 0, |data|, gen)[|data|..] == Zeros(|gen|)
  {
    var n := |data|;
    var w1 := data + Remainder(exp, log, data, gen);
    var w2 := data + Zeros(|gen|);
    assert w1[..n] == data == w2[..n];
    DivideTailDifference(exp, log, w1, w2, 0, n, gen);
    var d1 := Divide(exp, log, w1, 0, n, gen)[n..];
    var d2 := Divide(exp, log, w2, 0, n, gen)[n..];
    assert w1[n..] == d2 && w2[n..] == Zeros(|gen|);
    forall j | 0 <= j < |gen|
      ensures d1[j] == 0
    {
      assert XorSeq(d1, d2)[j] == XorSeq(w1[n..], w2[n..])[j];
      assert d1[j] ^ d2[j] == d2[j] ^ 0;
    }
  }

  /**
   * `x(data, gen)`: copies the data into a work array followed by
   * `gen.length` zeros, divides position by position, and returns the tail.
   */
  method RsRemainder(exp: seq<bv8>, log: seq<int>, data: seq<bv8>, gen: seq<int>) returns (ecc: seq<bv8>)
    requires |log| == 256
    ensures ecc == Remainder(exp, log, data, gen)
  {
    var n := |data|;
    var u := |gen|;
    var e := new bv8[n + u](j => if 0 <= j < n then data[j] else 0);
    assert e[..] == data + Zeros(u);
    var f := 0;
    while f < n
      invariant 0 <= f <= n
      invariant Divide(exp, log, e[..], f, n, gen) == Divide(exp, log, data + Zeros(u), 0, n, gen)
    {
      var i := log[e[f] as int];
      f := f + 1;
      if i >= 0 {
        AddMultipleInPlace(exp, e, f, i, gen);
      }
    }
    ecc := e[n..];
  }

  /** The inner loop of `x`: `e[f + s] ^= a[(i + gen[s]) % 255]` for each s. */
  method AddMultipleInPlace(exp: seq<bv8>, e: array<bv8>, start: nat, i: int, gen: seq<int>)
    requires start + |gen| <= e.Length
    modifies e
    ensures e[..] == AddMultiple(exp, old(e[..]), start, i, gen)
  {
    ghost var before := e[..];
    for s := 0 to |gen|
      invariant forall j :: 0 <= j < e.Length && !(start <= j < start + s) ==> e[j] == before[j]
      invariant forall j :: start <= j < start + s ==> e[j] == before[j] ^ ExpAt(exp, JsRem(i + gen[j - start], 255))
    {
      e[start + s] := e[start + s] ^ ExpAt(exp, JsRem(i + gen[s], 255));
    }
  }
}
