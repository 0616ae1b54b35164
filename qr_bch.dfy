/**
 * The BCH codes of sections 7.9 (format information) and 7.10 (version
 * information) of ISO/IEC 18004, as `y(r, t, e, n)` of
 * main/static/js/qr-code.js computes them: the t-bit value r is shifted left
 * by n, divided by the generator e of degree n, and the n-bit remainder is
 * appended below r. Values and shift amounts are JavaScript 32-bit integers
 * (`bv32`).
 */
module QrBch {
  /** One step of the division at bit n+o: where that bit is set, the generator shifted by o is added (XORed). */
  function Eliminate(a: bv32, o: bv32, n: bv32, e: bv32): bv32 {
    if n < 32 && o < 32 && n + o < 32 && (a >> (n + o)) & 1 == 1 then a ^ (e << o) else a
  }

  /** The division steps at bits n+o-1 down to n. */
  function Reduce(a: bv32, o: bv32, n: bv32, e: bv32): bv32
    decreases o
  {
    if o == 0 then a else Reduce(Eliminate(a, o - 1, n, e), o - 1, n, e)
  }

  /** The t-bit value r with its n-bit BCH remainder appended. */
  function Code(r: bv32, t: bv32, e: bv32, n: bv32): bv32
    requires 0 < t < 32 && n < 32 && n + t < 32
  {
    (r << n) | Reduce(r << n, t, n, e)
  }

  /** `y(r, t, e, n)`: the loop runs o from t-1 down to 0. */
  method Bch(r: bv32, t: bv32, e: bv32, n: bv32) returns (code: bv32)
    requires 0 < t < 32 && n < 32 && n + t < 32
    ensures code == Code(r, t, e, n)
  {
    var a := r << n;
    var o: bv32 := t;
    ghost var g := Reduce(a, o, n, e);
    while o > 0
      invariant o <= t
      invariant g == Reduce(a, o, n, e)
    {
      o := o - 1;
      a := Eliminate(a, o, n, e);
    }
    code := (r << n) | a;
    CodeOf(r, t, e, n, a);
  }

  /** The code for r is r shifted by n with the remainder a below it. */
  lemma CodeOf(r: bv32, t: bv32, e: bv32, n: bv32, a: bv32)
    requires 0 < t < 32 && n < 32 && n + t < 32
    requires a == Reduce(r << n, t, n, e)
    ensures Code(r, t, e, n) == (r << n) | a
  {
  }

  /** The format information word for an error correction level and mask, masked with 0x5412. */
  function FormatWord(ecc: bv32, mask: bv32): bv32
    requires ecc < 4 && mask < 8
  {
    0x5412 ^ Code((ecc << 3) | mask, 5, 0x537, 10)
  }

  /** `21522 ^ y(e << 3 | n, 5, 1335, 10)` in the format writer `M`. */
  method FormatInfo(ecc: bv32, mask: bv32) returns (word: bv32)
    requires ecc < 4 && mask < 8
    ensures word == FormatWord(ecc, mask)
  {
    var code := Bch((ecc << 3) | mask, 5, 0x537, 10);
    word := 0x5412 ^ code;
  }

  /** `y(t, 6, 7973, 12)` in the function-pattern writer. */
  method VersionInfo(version: bv32) returns (word: bv32)
    ensures word == Code(version, 6, 0x1F25, 12)
  {
    word := Bch(version, 6, 0x1F25, 12);
  }

  /** The remainder of a 5-bit value divided by the format generator fits in 10 bits. */
  lemma FormatRemainderBelow(r: bv32)
    requires r < 32
    ensures Reduce(r << 10, 5, 10, 0x537) < 0x400
  {
    var a5 := r << 10;
    var a4 := Eliminate(a5, 4, 10, 0x537);
    assert a4 < 0x4000;
    var a3 := Eliminate(a4, 3, 10, 0x537);
    assert a3 < 0x2000;
    var a2 := Eliminate(a3, 2, 10, 0x537);
    assert a2 < 0x1000;
    var a1 := Eliminate(a2, 1, 10, 0x537);
    assert a1 < 0x800;
    var a0 := Eliminate(a1, 0, 10, 0x537);
    assert a0 < 0x400;
    assert Reduce(a1, 1, 10, 0x537) == a0;
    assert Reduce(a3, 3, 10, 0x537) == a0;
  }

  /** The format word is 15 bits long and gives back the error correction level and the mask. */
  lemma FormatWordDecodes(ecc: bv32, mask: bv32)
    requires ecc < 4 && mask < 8
    ensures FormatWord(ecc, mask) < 0x8000
    ensures (FormatWord(ecc, mask) ^ 0x5412) >> 13 == ecc
    ensures ((FormatWord(ecc, mask) ^ 0x5412) >> 10) & 7 == mask
  {
    var r := (ecc << 3) | mask;
    FormatRemainderBelow(r);
    CodeOf(r, 5, 0x537, 10, Reduce(r << 10, 5, 10, 0x537));
  }

  /** Distinct levels or masks give distinct format words. */
  lemma FormatWordInjective(e1: bv32, m1: bv32, e2: bv32, m2: bv32)
    requires e1 < 4 && m1 < 8 && e2 < 4 && m2 < 8
    requires FormatWord(e1, m1) == FormatWord(e2, m2)
    ensures e1 == e2 && m1 == m2
  {
    FormatWordDecodes(e1, m1);
    FormatWordDecodes(e2, m2);
  }

  /** The remainder of a 6-bit value divided by the version generator fits in 12 bits. */
  lemma VersionRemainderBelow(v: bv32)
    requires v < 64
    ensures Reduce(v << 12, 6, 12, 0x1F25) < 0x1000
  {
    var a6 := v << 12;
    var a5 := Eliminate(a6, 5, 12, 0x1F25);
    assert a5 < 0x20000;
    var a4 := Eliminate(a5, 4, 12, 0x1F25);
    assert a4 < 0x10000;
    var a3 := Eliminate(a4, 3, 12, 0x1F25);
    assert a3 < 0x8000;
    var a2 := Eliminate(a3, 2, 12, 0x1F25);
    assert a2 < 0x4000;
    var a1 := Eliminate(a2, 1, 12, 0x1F25);
    assert a1 < 0x2000;
    var a0 := Eliminate(a1, 0, 12, 0x1F25);
    assert a0 < 0x1000;
    assert Reduce(a1, 1, 12, 0x1F25) == a0;
    assert Reduce(a3, 3, 12, 0x1F25) == a0;
    assert Reduce(a5, 5, 12, 0x1F25) == a0;
  }

  /** The version word is 18 bits long and gives back the version. */
  lemma VersionWordDecodes(version: bv32)
    requires 7 <= version <= 40
    ensures Code(version, 6, 0x1F25, 12) < 0x40000
    ensures Code(version, 6, 0x1F25, 12) >> 12 == version
  {
    VersionRemainderBelow(version);
    CodeOf(version, 6, 0x1F25, 12, Reduce(version << 12, 6, 12, 0x1F25));
  }

  /** Entries of Tables C.1 and D.1 of ISO/IEC 18004: level L (code 1) with mask 0, and version 7. */
  lemma KnownWords()
    ensures FormatWord(1, 0) == 0x77C4
    ensures Code(7, 6, 0x1F25, 12) == 0x07C94
  {
  }
}
