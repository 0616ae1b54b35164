/**
 * The Reed-Solomon field GF(256) of section 7.5.2 of ISO/IEC 18004, with
 * primitive polynomial x^8 + x^4 + x^3 + x^2 + 1 (0x11D) and generator 2, as
 * the QR encoder of main/static/js/qr-code.js builds it: an exponent table of
 * the 255 successive powers of 2, a logarithm table inverting it, and the
 * Reed-Solomon generator polynomials of degree 0 to 30 in logarithm form.
 * Field elements are bytes (`bv8`); a logarithm of -1 stands for the zero
 * element, which has none.
 */
module QrField {
  /** Multiplication by 2: a left shift, reduced by 0x11D when bit 7 was set. */
  function Step(f: bv8): bv8 {
    (f << 1) ^ (if f & 0x80 != 0 then 0x1D else 0)
  }

  /** 2 to the power k in GF(256). */
  function Pow(k: nat): bv8 {
    if k == 0 then 1 else Step(Pow(k - 1))
  }

  /** k steps of multiplication by 2 applied to f. */
  function StepN(k: nat, f: bv8): bv8 {
    if k == 0 then f else Step(StepN(k - 1, f))
  }

  /** Multiplying by 2 is injective, and so never turns a nonzero element into zero. */
  lemma StepInjective(a: bv8, b: bv8)
    ensures Step(a) == Step(b) ==> a == b
  {
  }

  lemma {:induction false} PowAdd(a: nat, b: nat)
    ensures Pow(a + b) == StepN(a, Pow(b))
    decreases a
  {
    if a > 0 {
      PowAdd(a - 1, b);
    }
  }

  /** 2 has order 255: 2^255 = 1 and no smaller positive power is 1. */
  lemma PowOrder()
    ensures forall d :: 1 <= d < 255 ==> Pow(d) != 1
    ensures Pow(255) == 1
  {
    PowOrder0();
    PowOrder1();
    PowOrder2();
    PowOrder3();
    PowOrder4();
    PowOrder5();
    PowOrder6();
    PowOrder7();
  }

  /** The powers 2^1 .. 2^32. */
  lemma PowOrder0()
    ensures Pow(32) == 157
    ensures forall d :: 1 <= d <= 32 ==> Pow(d) != 1
  {
    assert Pow(8) == 29;
    assert Pow(16) == 76;
    assert Pow(24) == 143;
    assert Pow(32) == 157;
  }

  /** The powers 2^33 .. 2^64. */
  lemma PowOrder1()
    ensures Pow(64) == 95
    ensures forall d :: 33 <= d <= 64 ==> Pow(d) != 1
  {
    PowOrder0();
    assert Pow(40) == 106;
    assert Pow(48) == 70;
    assert Pow(56) == 93;
    assert Pow(64) == 95;
  }

  /** The powers 2^65 .. 2^96. */
  lemma PowOrder2()
    ensures Pow(96) == 217
    ensures forall d :: 65 <= d <= 96 ==> Pow(d) != 1
  {
    PowOrder1();
    assert Pow(72) == 101;
    assert Pow(80) == 253;
    assert Pow(88) == 254;
    assert Pow(96) == 217;
  }

  /** The powers 2^97 .. 2^128. */
  lemma PowOrder3()
    ensures Pow(128) == 133
    ensures forall d :: 97 <= d <= 128 ==> Pow(d) != 1
  {
    PowOrder2();
    assert Pow(104) == 13;
    assert Pow(112) == 129;
    assert Pow(120) == 59;
    assert Pow(128) == 133;
  }

  /** The powers 2^129 .. 2^160. */
  lemma PowOrder4()
    ensures Pow(160) == 230
    ensures forall d :: 129 <= d <= 160 ==> Pow(d) != 1
  {
    PowOrder3();
    assert Pow(136) == 79;
    assert Pow(144) == 168;
    assert Pow(152) == 73;
    assert Pow(160) == 230;
  }

  /** The powers 2^161 .. 2^192. */
  lemma PowOrder5()
    ensures Pow(192) == 130
    ensures forall d :: 161 <= d <= 192 ==> Pow(d) != 1
  {
    PowOrder4();
    assert Pow(168) == 252;
    assert Pow(176) == 227;
    assert Pow(184) == 149;
    assert Pow(192) == 130;
  }

  /** The powers 2^193 .. 2^224. */
  lemma PowOrder6()
    ensures Pow(224) == 18
    ensures forall d :: 193 <= d <= 224 ==> Pow(d) != 1
  {
    PowOrder5();
    assert Pow(200) == 28;
    assert Pow(208) == 81;
    assert Pow(216) == 195;
    assert Pow(224) == 18;
  }

  /** The powers 2^225 .. 2^255. */
  lemma PowOrder7()
    ensures Pow(255) == 1
    ensures forall d :: 225 <= d < 255 ==> Pow(d) != 1
  {
    PowOrder6();
    assert Pow(232) == 247;
    assert Pow(240) == 44;
    assert Pow(248) == 27;
    assert Pow(255) == 1;
  }

  lemma {:induction false} PowCancel(i: nat, j: nat)
    requires i <= j && Pow(i) == Pow(j)
    ensures Pow(j - i) == 1
    decreases i
  {
    if i > 0 {
      StepInjective(Pow(i - 1), Pow(j - 1));
      PowCancel(i - 1, j - 1);
    }
  }

  /** The powers 2^0 .. 2^254 are pairwise distinct and nonzero. */
  lemma PowersDistinct(i: nat, j: nat)
    requires i < j < 255
    ensures Pow(i) != Pow(j) && Pow(i) != 0
  {
    PowOrder();
    if Pow(i) == Pow(j) {
      PowCancel(i, j);
    }
    PowNonZero(i);
  }

  lemma {:induction false} PowNonZero(k: nat)
    ensures Pow(k) != 0
  {
    if k > 0 {
      PowNonZero(k - 1);
      StepInjective(Pow(k - 1), 0);
    }
  }

  /** The powers repeat with period 255, so exponents may be taken modulo 255. */
  lemma {:induction false} PowPeriodic(k: nat)
    ensures Pow(k + 255) == Pow(k)
  {
    PowOrder();
    PowAdd(k, 255);
    PowAdd(k, 0);
  }

  lemma BytesDiffer(a: bv8, b: bv8)
    requires a != b
    ensures a as int != b as int
  {
  }

  /** A logarithm table: -1 at zero, and for every power of 2 its exponent. */
  ghost predicate IsLogTable(log: seq<int>) {
    |log| == 256 && log[0] == -1 &&
    (forall v :: 0 <= v < 256 ==> -1 <= log[v] < 255) &&
    (forall k :: 0 <= k < 255 ==> log[Pow(k) as int] == k)
  }

  /** The first u entries of both tables are filled, and every other logarithm entry is -1 or an exponent below u. */
  ghost predicate FilledUpTo(exp: seq<bv8>, log: seq<int>, u: nat) {
    |exp| == 255 && |log| == 256 && u <= 255 && log[0] == -1 &&
    (forall v :: 0 <= v < 256 ==> -1 <= log[v] < 255) &&
    (forall k :: 0 <= k < u ==> exp[k] == Pow(k)) &&
    (forall k :: 0 <= k < u ==> log[Pow(k) as int] == k)
  }

  /** Entry u of the exponent table and entry 2^u of the logarithm table extend the filled part. */
  lemma FillStep(exp: seq<bv8>, log: seq<int>, u: nat, exp': seq<bv8>, log': seq<int>)
    requires FilledUpTo(exp, log, u) && u < 255
    requires exp' == exp[u := Pow(u)] && log' == log[Pow(u) as int := u]
    ensures FilledUpTo(exp', log', u + 1)
  {
    PowNonZero(u);
    BytesDiffer(Pow(u), 0);
    forall k | 0 <= k < u
      ensures log'[Pow(k) as int] == k
    {
      PowersDistinct(k, u);
      BytesDiffer(Pow(k), Pow(u));
    }
  }

  /**
   * Fills the exponent table with the successive powers of 2 and the
   * logarithm table with their exponents. Entries of the logarithm table
   * that no power reaches keep -1.
   */
  method BuildTables() returns (exp: array<bv8>, log: array<int>)
    ensures exp.Length == 255 && forall k :: 0 <= k < 255 ==> exp[k] == Pow(k)
    ensures log.Length == 256 && log[0] == -1
    ensures forall v :: 0 <= v < 256 ==> -1 <= log[v] < 255
    ensures forall k :: 0 <= k < 255 ==> log[exp[k] as int] == k
  {
    exp := new bv8[255];
    log := new int[256](_ => -1);
    var f: bv8 := 1;
    for u := 0 to 255
      invariant f == Pow(u)
      invariant FilledUpTo(exp[..], log[..], u)
    {
      ghost var e0, l0 := exp[..], log[..];
      exp[u] := f;
      log[f as int] := u;
      FillStep(e0, l0, u, exp[..], log[..]);
      f := Step(f);
    }
    Filled(exp[..], log[..]);
  }

  lemma Filled(exp: seq<bv8>, log: seq<int>)
    requires FilledUpTo(exp, log, 255)
    ensures forall k :: 0 <= k < 255 ==> log[exp[k] as int] == k
  {
  }

  /** What BuildTables produces, as sequences. */
  ghost predicate Tables(exp: seq<bv8>, log: seq<int>) {
    |exp| == 255 && (forall k :: 0 <= k < 255 ==> exp[k] == Pow(k)) &&
    |log| == 256 && log[0] == -1 && (forall v :: 0 <= v < 256 ==> -1 <= log[v] < 255) &&
    (forall k :: 0 <= k < 255 ==> log[exp[k] as int] == k)
  }

  /** JavaScript's `%`, which truncates toward zero. */
  function JsRem(x: int, m: int): (r: int)
    requires m > 0
    ensures x >= 0 ==> r == x % m
    ensures -m < r < m
  {
    if x >= 0 then x % m else -((-x) % m)
  }

  /** `a[k]`: a read outside the table is `undefined`, which `^` treats as 0. */
  function ExpAt(exp: seq<bv8>, k: int): (r: bv8)
    ensures 0 <= k < |exp| ==> r == exp[k]
    ensures !(0 <= k < |exp|) ==> r == 0
  {
    if 0 <= k < |exp| then exp[k] else 0
  }

  /**
   * The coefficient at index l of the next generator polynomial: the
   * polynomial s (coefficients after the implicit leading 1, as logarithms)
   * multiplied by (x + 2^u). A missing entry `s[l-1]` counts as 0.
   */
  function GenCoeff(exp: seq<bv8>, log: seq<int>, s: seq<int>, u: nat, l: nat): int
    requires |log| == 256 && |s| == u && l <= u && LogForm(s)
  {
    var c := if l < u then ExpAt(exp, s[l]) else 0;
    var v := ExpAt(exp, JsRem(u + (if l == 0 then 0 else s[l - 1]), 255));
    log[(c ^ v) as int]
  }

  /** The log-form generator polynomial after multiplying s by (x + 2^u). */
  function GenNext(exp: seq<bv8>, log: seq<int>, s: seq<int>, u: nat): (r: seq<int>)
    requires |log| == 256 && |s| == u && LogForm(s)
    ensures |r| == u + 1
    ensures forall l :: 0 <= l <= u ==> r[l] == GenCoeff(exp, log, s, u, l)
  {
    seq(u + 1, l requires 0 <= l <= u => GenCoeff(exp, log, s, u, l))
  }

  /** Every entry of a log-form polynomial is a logarithm or -1. */
  predicate LogForm(s: seq<int>) {
    forall j :: 0 <= j < |s| ==> -1 <= s[j] < 255
  }

  /** Built from a logarithm table, every generator polynomial is in log form. */
  lemma GenNextLogForm(exp: seq<bv8>, log: seq<int>, s: seq<int>, u: nat)
    requires Tables(exp, log) && |s| == u && LogForm(s)
    ensures LogForm(GenNext(exp, log, s, u))
  {
  }

  /**
   * The table `i` of Reed-Solomon generator polynomials: entry u has degree u
   * and is entry u-1 multiplied by (x + 2^(u-1)), for u up to 30.
   */
  method BuildGenerators(exp: seq<bv8>, log: seq<int>) returns (gens: seq<seq<int>>)
    requires Tables(exp, log)
    ensures |gens| == 31 && gens[0] == []
    ensures forall u :: 0 <= u < 31 ==> |gens[u]| == u && LogForm(gens[u])
    ensures forall u :: 0 <= u < 30 ==> gens[u + 1] == GenNext(exp, log, gens[u], u)
  {
    gens := [[]];
    for u := 0 to 30
      invariant |gens| == u + 1 && gens[0] == []
      invariant forall w :: 0 <= w <= u ==> |gens[w]| == w && LogForm(gens[w])
      invariant forall w :: 0 <= w < u ==> gens[w + 1] == GenNext(exp, log, gens[w], w)
    {
      var s := gens[u];
      var h: seq<int> := [];
      for l := 0 to u + 1
        invariant |h| == l
        invariant forall j :: 0 <= j < l ==> h[j] == GenCoeff(exp, log, s, u, j)
      {
        var c := if l < u then ExpAt(exp, s[l]) else 0;
        var v := ExpAt(exp, JsRem(u + (if l == 0 then 0 else s[l - 1]), 255));
        h := h + [log[(c ^ v) as int]];
      }
      GenNextLogForm(exp, log, s, u);
      gens := gens + [h];
    }
  }
}
