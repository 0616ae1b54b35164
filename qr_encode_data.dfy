/**
 * The data encoder of main/static/js/qr-code.js as it runs: the inner
 * function `f(version, mode, data, n)` of `L` writes the segment into a
 * bit buffer with one loop per mode, ends it with the terminator, flushes
 * the unfinished byte and pads to n codewords. Each method is proved to
 * compute the corresponding function of the QrEncoder module.
 */
module QrEncodeData {
  import opened QrCapacity
  import opened QrModes
  import opened QrBits
  import opened QrEncoder

  /** The bits after `start` and a, followed by b, are the bits after `start` and a + b. */
  lemma AppendTo(bits: seq<bool>, start: seq<bool>, a: seq<bool>, b: seq<bool>, ab: seq<bool>)
    requires bits == start + a && ab == a + b
    ensures bits + b == start + ab
  {
  }

  /** The bits of the first h + 1 bytes: those of the first h, then byte h. */
  lemma BytesBitsStep(b: seq<int>, h: nat)
    requires h < |b|
    ensures BytesBits(b[..h + 1]) == BytesBits(b[..h]) + BitsOf(b[h], 8)
  {
    assert b[..h + 1] == b[..h] + [b[h]];
    BytesBitsAppend(b[..h], b[h]);
  }

  /**
   * Numeric mode: `for (h = 2; h < f; h += 3) i(parseInt(e.substring(h - 2, h + 1)), 10)`,
   * then `i(parseInt(e.substring(h - 2)), [0, 4, 7][f % 3])`; k counts the groups written.
   */
  method WriteNumeric(w: BitWriter, s: string)
    requires w.Valid() && IsNumeric(s)
    modifies w
    ensures w.Valid() && w.Bits() == old(w.Bits()) + NumericBits(s)
  {
    ghost var start := w.Bits();
    var f := |s|;
    var h := 2;
    ghost var k: nat := 0;
    while h < f
      invariant h == 3 * k + 2 && 3 * k <= f
      invariant w.Valid() && w.Bits() == start + NumericGroups(s, k)
      decreases f - h
    {
      ghost var j := k;
      k := k + 1;
      NumericStep(s, j, k, h, start, w.Bits());
      w.Put(DigitsValue(s[h - 2..h + 1]), 10);
      h := h + 3;
    }
    NumericLast(s, k, h, start, w.Bits());
    w.Put(DigitsValue(s[h - 2..]), DigitsWidth(f % 3));
  }

  /** The group of three digits ending at h: it fits 10 bits and its bits extend the groups by one. */
  lemma NumericStep(s: string, j: nat, k: nat, h: nat, start: seq<bool>, bits: seq<bool>)
    requires IsNumeric(s) && k == j + 1 && h == 3 * j + 2 && h < |s|
    requires bits == start + NumericGroups(s, j)
    ensures IsNumeric(s[h - 2..h + 1]) && DigitsValue(s[h - 2..h + 1]) < Pow2(10)
    ensures bits + BitsOf(DigitsValue(s[h - 2..h + 1]), 10) == start + NumericGroups(s, k)
  {
    NumericSlice(s, h - 2, h + 1);
    DigitsFitWidth(s[h - 2..h + 1]);
    GroupEndingAt(s, j, h);
    GroupsUnfold(s, j, k);
    AppendTo(bits, start, NumericGroups(s, j), BitsOf(DigitsValue(s[h - 2..h + 1]), 10), NumericGroups(s, k));
  }

  /** Group j is the group of three digits ending at index h. */
  lemma GroupEndingAt(s: string, j: nat, h: nat)
    requires IsNumeric(s) && h == 3 * j + 2 && h < |s| && IsNumeric(s[h - 2..h + 1])
    ensures Group(s, j) == BitsOf(DigitsValue(s[h - 2..h + 1]), 10)
  {
  }

  /** The digits left after k whole groups: they fit their width and complete the numeric bits. */
  lemma NumericLast(s: string, k: nat, h: nat, start: seq<bool>, bits: seq<bool>)
    requires IsNumeric(s) && h == 3 * k + 2 && 3 * k <= |s| <= h
    requires bits == start + NumericGroups(s, k)
    ensures IsNumeric(s[h - 2..]) && DigitsValue(s[h - 2..]) < Pow2(DigitsWidth(|s| % 3))
    ensures bits + BitsOf(DigitsValue(s[h - 2..]), DigitsWidth(|s| % 3)) == start + NumericBits(s)
  {
    NumericBitsAt(s, k, h - 2);
    DigitsFitWidth(s[h - 2..]);
    AppendTo(bits, start, NumericGroups(s, k), BitsOf(DigitsValue(s[h - 2..]), DigitsWidth(|s| % 3)), NumericBits(s));
  }

  /** After k whole groups, starting at digit i, the numeric bits are the groups and the group of the rest. */
  lemma NumericBitsAt(s: string, k: nat, i: nat)
    requires IsNumeric(s) && i == 3 * k && i <= |s| < i + 3
    ensures IsNumeric(s[i..]) && |s[i..]| == |s| % 3
    ensures NumericBits(s) == NumericGroups(s, k) + BitsOf(DigitsValue(s[i..]), DigitsWidth(|s| % 3))
  {
    NumericSlice(s, i, |s|);
    assert s[i..] == s[i..|s|];
    DivUnique(|s|, 3, k, |s| - i);
  }

  /**
   * Alphanumeric mode: `for (h = 1; h < f; h += 2) i(45 * g[e[h - 1]] + g[e[h]], 11)`,
   * then `f % 2 == 1 && i(g[e[h - 1]], 6)`; k counts the pairs written.
   */
  method WriteAlnum(w: BitWriter, s: string)
    requires w.Valid() && IsAlphanumeric(s)
    modifies w
    ensures w.Valid() && w.Bits() == old(w.Bits()) + AlnumBits(s)
  {
    ghost var start := w.Bits();
    var f := |s|;
    var h := 1;
    ghost var k: nat := 0;
    while h < f
      invariant h == 2 * k + 1 && 2 * k <= f
      invariant w.Valid() && w.Bits() == start + AlnumPairs(s, k)
      decreases f - h
    {
      ghost var j := k;
      k := k + 1;
      AlnumStep(s, j, k, h, start, w.Bits());
      w.Put(PairValue(s[h - 1], s[h]), 11);
      h := h + 2;
    }
    Parity(f, k);
    if f % 2 == 1 {
      AlnumLastOdd(s, k, h, start, w.Bits());
      w.Put(AlnumValue(s[h - 1]), 6);
    } else {
      AlnumLastEven(s, k, start, w.Bits());
    }
  }

  /** The pair ending at h: it fits 11 bits and its bits extend the pairs by one. */
  lemma AlnumStep(s: string, j: nat, k: nat, h: nat, start: seq<bool>, bits: seq<bool>)
    requires IsAlphanumeric(s) && k == j + 1 && h == 2 * j + 1 && h < |s|
    requires bits == start + AlnumPairs(s, j)
    ensures 0 <= PairValue(s[h - 1], s[h]) < Pow2(11)
    ensures bits + BitsOf(PairValue(s[h - 1], s[h]), 11) == start + AlnumPairs(s, k)
  {
    PairFits(s[h - 1], s[h]);
    PairEndingAt(s, j, h);
    PairsUnfold(s, j, k);
    AppendTo(bits, start, AlnumPairs(s, j), BitsOf(PairValue(s[h - 1], s[h]), 11), AlnumPairs(s, k));
  }

  /** Pair j is the pair of characters ending at index h. */
  lemma PairEndingAt(s: string, j: nat, h: nat)
    requires h == 2 * j + 1 && h < |s|
    ensures Pair(s, j) == BitsOf(PairValue(s[h - 1], s[h]), 11)
  {
  }

  /** A count between 2k and 2k + 1 is odd exactly when it is 2k + 1. */
  lemma Parity(f: nat, k: nat)
    requires 2 * k <= f <= 2 * k + 1
    ensures f % 2 == 1 <==> f == 2 * k + 1
  {
    DivUnique(f, 2, k, f - 2 * k);
  }

  /** An odd count: the last character fits 6 bits and completes the alphanumeric bits. */
  lemma AlnumLastOdd(s: string, k: nat, h: nat, start: seq<bool>, bits: seq<bool>)
    requires IsAlphanumeric(s) && h == 2 * k + 1 && |s| == h
    requires bits == start + AlnumPairs(s, k)
    ensures 0 <= AlnumValue(s[h - 1]) < Pow2(6)
    ensures bits + BitsOf(AlnumValue(s[h - 1]), 6) == start + AlnumBits(s)
  {
    PairFits(s[h - 1], s[h - 1]);
    AlnumBitsOdd(s, k, h - 1);
    AppendTo(bits, start, AlnumPairs(s, k), BitsOf(AlnumValue(s[h - 1]), 6), AlnumBits(s));
  }

  /** An odd number of characters: the pairs, then the last character at index i in 6 bits. */
  lemma AlnumBitsOdd(s: string, k: nat, i: nat)
    requires IsAlphanumeric(s) && i == 2 * k && |s| == i + 1
    ensures AlnumBits(s) == AlnumPairs(s, k) + BitsOf(AlnumValue(s[i]), 6)
  {
    DivUnique(|s|, 2, k, 1);
  }

  /** An even count: the pairs are the alphanumeric bits. */
  lemma AlnumLastEven(s: string, k: nat, start: seq<bool>, bits: seq<bool>)
    requires IsAlphanumeric(s) && |s| == 2 * k
    requires bits == start + AlnumPairs(s, k)
    ensures bits == start + AlnumBits(s)
  {
    DivUnique(|s|, 2, k, 0);
    NoneAfter(AlnumPairs(s, k));
  }

  /** Octet mode: `for (h = 0; h < f; ++h) i(e[h], 8)`. */
  method WriteOctets(w: BitWriter, b: seq<int>)
    requires w.Valid() && forall i :: 0 <= i < |b| ==> 0 <= b[i] < 256
    modifies w
    ensures w.Valid() && w.Bits() == old(w.Bits()) + BytesBits(b)
  {
    ghost var start := w.Bits();
    Pow2Byte();
    var h := 0;
    while h < |b|
      invariant 0 <= h <= |b|
      invariant w.Valid() && w.Bits() == start + BytesBits(b[..h])
    {
      BytesBitsStep(b, h);
      Assoc(start, BytesBits(b[..h]), BitsOf(b[h], 8));
      w.Put(b[h], 8);
      h := h + 1;
    }
    assert b[..h] == b;
  }

  /** `i(t, 4), i(f, w(r, t))` and the data in the loop of its mode. */
  method WriteSegment(w: BitWriter, v: int, mode: Mode, data: Data)
    requires w.Valid() && Encodable(mode, data) && data.Length() < Pow2(CountWidth(v, mode))
    modifies w
    ensures w.Valid() && w.Bits() == old(w.Bits()) + SegmentBits(v, mode, data)
  {
    ghost var start := w.Bits();
    assert Pow2(4) == 16;
    w.Put(mode.Indicator(), 4);
    w.Put(data.Length(), CountWidth(v, mode));
    ghost var header := BitsOf(mode.Indicator(), 4) + BitsOf(data.Length(), CountWidth(v, mode));
    Assoc(start, BitsOf(mode.Indicator(), 4), BitsOf(data.Length(), CountWidth(v, mode)));
    match mode {
      case Numeric => WriteNumeric(w, data.chars);
      case Alphanumeric => WriteAlnum(w, data.chars);
      case Octet => WriteOctets(w, data.bytes);
    }
    Assoc(start, header, Payload(mode, data));
  }

  /** `while (a.length + 1 < n) a.push(236, 17); a.length < n && a.push(236)`; k counts the pad codewords. */
  method PadCodewords(a0: seq<int>, n: nat) returns (a: seq<int>)
    ensures a == a0 + Pad(PadCount(|a0|, n))
  {
    a := a0;
    ghost var k: nat := 0;
    NoneAfter(a0);
    while |a| + 1 < n
      invariant a == a0 + Pad(k) && k % 2 == 0
      invariant k == 0 || |a| <= n
      decreases n - |a|
    {
      PadTwo(a0, a, k);
      a := a + [236, 17];
      k := k + 2;
    }
    if |a| < n {
      PadOne(a0, a, k);
      a := a + [236];
      k := k + 1;
    }
    assert k == PadCount(|a0|, n);
  }

  /** Two more pad codewords continue the alternation: 236, then 17. */
  lemma PadTwo(a0: seq<int>, a: seq<int>, k: nat)
    requires a == a0 + Pad(k) && k % 2 == 0
    ensures a + [236, 17] == a0 + Pad(k + 2)
  {
    assert Pad(k) + [236, 17] == Pad(k + 2);
  }

  /** One more pad codeword after an even number of them is 236. */
  lemma PadOne(a0: seq<int>, a: seq<int>, k: nat)
    requires a == a0 + Pad(k) && k % 2 == 0
    ensures a + [236] == a0 + Pad(k + 1)
  {
    assert Pad(k) + [236] == Pad(k + 1);
  }

  /** The terminator of the given width, the flush of the unfinished byte, and the padding to n codewords. */
  method Finish(w: BitWriter, term: nat, n: nat) returns (codewords: seq<int>)
    requires w.Valid()
    modifies w
    ensures codewords == Codify(old(w.Bits()), term, n)
  {
    ghost var seg := w.Bits();
    w.Put(0, term);
    var out := w.Flush();
    codewords := PadCodewords(out, n);
    FinishParts(seg, term, n, out, codewords);
  }

  /** Bytes whose bits are the filled segment, padded to n, are the codewords Codify describes. */
  lemma FinishParts(seg: seq<bool>, term: nat, n: nat, out: seq<int>, c: seq<int>)
    requires forall i :: 0 <= i < |out| ==> 0 <= out[i] < 256
    requires BytesBits(out) == Filled(seg, term) && c == out + Pad(PadCount(|out|, n))
    ensures c == Codify(seg, term, n)
  {
    UnpackBytesBits(out);
  }

  /** The data codewords as the encoder writes them, with a 4-bit terminator whatever room is left. */
  method EncodeDataAsWritten(v: int, mode: Mode, data: Data, n: nat) returns (codewords: seq<int>)
    requires Encodable(mode, data) && data.Length() < Pow2(CountWidth(v, mode))
    ensures codewords == DataCodewordsAsWritten(v, mode, data, n)
  {
    var w := new BitWriter();
    WriteSegment(w, v, mode, data);
    ghost var seg := w.Bits();
    codewords := Finish(w, 4, n);
    AsWrittenParts(v, mode, data, n, seg, codewords);
  }

  lemma AsWrittenParts(v: int, mode: Mode, data: Data, n: nat, seg: seq<bool>, c: seq<int>)
    requires Encodable(mode, data) && seg == [] + SegmentBits(v, mode, data) && c == Codify(seg, 4, n)
    ensures c == DataCodewordsAsWritten(v, mode, data, n)
  {
    assert seg == SegmentBits(v, mode, data);
  }

  /** The data codewords with the terminator cut to the room left in the n codewords. */
  method EncodeData(v: int, mode: Mode, data: Data, n: nat) returns (codewords: seq<int>)
    requires Encodable(mode, data) && data.Length() < Pow2(CountWidth(v, mode))
    ensures codewords == DataCodewords(v, mode, data, n)
  {
    var w := new BitWriter();
    WriteSegment(w, v, mode, data);
    ghost var seg := w.Bits();
    var len := w.Length();
    codewords := Finish(w, TerminatorWidth(8 * n - len), n);
    CorrectedParts(v, mode, data, n, seg, len, codewords);
  }

  lemma CorrectedParts(v: int, mode: Mode, data: Data, n: nat, seg: seq<bool>, len: nat, c: seq<int>)
    requires Encodable(mode, data) && seg == [] + SegmentBits(v, mode, data) && len == |seg|
    requires c == Codify(seg, TerminatorWidth(8 * n - len), n)
    ensures c == DataCodewords(v, mode, data, n)
  {
    assert seg == SegmentBits(v, mode, data);
  }
}
