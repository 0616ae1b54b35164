/**
 * Codewords between numbers and bytes. main/static/js/qr-code.js keeps
 * codewords as numbers in 0..255; the Reed-Solomon and interleaving part of
 * the model works on bytes.
 */
module QrCodewords {
  /**
   * The byte of value x, counted up from zero: the solver reasons well about
   * adding one to a byte and poorly about casting a number to a bit-vector.
   */
  function ByteOf(x: int): (b: bv8)
    requires 0 <= x < 256
    ensures b as int == x
  {
    if x == 0 then 0
    else
      var b := ByteOf(x - 1);
      assert (b + 1) as int == b as int + 1;
      b + 1
  }

  /** Codewords in 0..255 as bytes. */
  function AsBytes(cw: seq<int>): (b: seq<bv8>)
    requires forall i :: 0 <= i < |cw| ==> 0 <= cw[i] < 256
    ensures |b| == |cw|
  {
    seq(|cw|, i requires 0 <= i < |cw| => ByteOf(cw[i]))
  }

  /** Bytes as codewords. */
  function Values(b: seq<bv8>): (cw: seq<int>)
    ensures |cw| == |b| && forall i :: 0 <= i < |b| ==> cw[i] == b[i] as int
  {
    seq(|b|, i requires 0 <= i < |b| => b[i] as int)
  }

  /** Codewords in 0..255 are their bytes' values. */
  lemma {:induction false} ValuesOfBytes(cw: seq<int>)
    requires forall i :: 0 <= i < |cw| ==> 0 <= cw[i] < 256
    ensures Values(AsBytes(cw)) == cw
  {
    forall i | 0 <= i < |cw|
      ensures Values(AsBytes(cw))[i] == cw[i]
    {
      assert AsBytes(cw)[i] == ByteOf(cw[i]);
    }
  }
}
