/**
 * The bit buffer of the QR data encoder in main/static/js/qr-code.js: the
 * closure `i(value, width)` appends the low `width` bits of `value`, most
 * significant first, to a byte array `a`, keeping an unfinished byte in `o`
 * with `u` bits still free in it.
 *
 * Bit strings are `seq<bool>`, most significant bit first. Shifts of
 * non-negative JavaScript integers below 2^31 are multiplications and
 * divisions by powers of two, and `&` with 2^k - 1 is a remainder; an `|`
 * whose operands have no set bit in common is written as `+`, and the
 * invariant of the buffer is what makes the operands disjoint.
 */
module QrBits {
  /** 2 to the power k. */
  function Pow2(k: nat): (r: nat)
    ensures r >= 1
  {
    if k == 0 then 1 else 2 * Pow2(k - 1)
  }

  lemma {:induction false} Pow2Add(a: nat, b: nat)
    ensures Pow2(a + b) == Pow2(a) * Pow2(b)
    decreases a
  {
    if a > 0 {
      Pow2Add(a - 1, b);
    }
  }

  /** Pow2Add for an exponent c that is already known to be a + b. */
  lemma Pow2Sum(a: nat, b: nat, c: nat)
    requires c == a + b
    ensures Pow2(c) == Pow2(a) * Pow2(b)
  {
    Pow2Add(a, b);
  }

  lemma Pow2Byte()
    ensures Pow2(8) == 256
  {
  }

  /** Three exponents that add up to 8 give powers whose product is 256. */
  lemma Pow2Product(a: nat, b: nat, c: nat)
    requires a + b + c == 8
    ensures Pow2(a) * Pow2(b) * Pow2(c) == 256
  {
    Pow2Triple(a, b, c);
    Pow2Byte();
  }

  lemma Pow2Triple(a: nat, b: nat, c: nat)
    ensures Pow2(a) * Pow2(b) * Pow2(c) == Pow2(a + b + c)
  {
    Pow2Add(a, b);
    Pow2Add(a + b, c);
  }

  /** The low `width` bits of `value`, most significant first. */
  function BitsOf(value: int, width: nat): (r: seq<bool>)
    ensures |r| == width
    decreases width
  {
    if width == 0 then [] else BitsOf(value / 2, width - 1) + [value % 2 == 1]
  }

  /** The number a bit string spells, most significant bit first. */
  function BitsValue(bits: seq<bool>): nat {
    if bits == [] then 0 else 2 * BitsValue(bits[..|bits| - 1]) + (if bits[|bits| - 1] then 1 else 0)
  }

  /** A bit string of length k spells a number below 2^k. */
  lemma {:induction false} BitsValueBound(bits: seq<bool>)
    ensures BitsValue(bits) < Pow2(|bits|)
  {
    if bits != [] {
      BitsValueBound(bits[..|bits| - 1]);
    }
  }

  /** Writing a value below 2^width and reading it back gives the value. */
  lemma {:induction false} BitsRoundTrip(value: int, width: nat)
    requires 0 <= value < Pow2(width)
    ensures BitsValue(BitsOf(value, width)) == value
  {
    if width > 0 {
      BitsRoundTrip(value / 2, width - 1);
      var r := BitsOf(value, width);
      assert r[..|r| - 1] == BitsOf(value / 2, width - 1);
    }
  }

  /** Bits read back are the bits written: BitsOf inverts BitsValue. */
  lemma {:induction false} BitsOfValue(bits: seq<bool>)
    ensures BitsOf(BitsValue(bits), |bits|) == bits
  {
    if bits != [] {
      var init := bits[..|bits| - 1];
      BitsOfValue(init);
      var v := BitsValue(bits);
      assert v / 2 == BitsValue(init);
      assert bits == init + [bits[|bits| - 1]];
    }
  }

  lemma DivUnique(v: int, d: int, q: int, r: int)
    requires d > 0 && v == q * d + r && 0 <= r < d
    ensures v / d == q && v % d == r
  {
    var q', r' := v / d, v % d;
    assert (q - q') * d == r' - r;
    if q > q' {
      MulAtLeast(q - q', d);
    } else if q < q' {
      MulAtLeast(q' - q, d);
    }
  }

  lemma MulAtLeast(k: int, d: int)
    requires k >= 1 && d > 0
    ensures k * d >= d
  {
  }

  lemma DivMod2(v: int, p: int)
    requires p >= 1
    ensures (v / 2) / p == v / (2 * p)
    ensures (v % (2 * p)) / 2 == (v / 2) % p
    ensures (v % (2 * p)) % 2 == v % 2
  {
    var q := v / (2 * p);
    var r := v % (2 * p);
    assert v == q * (2 * p) + r;
    assert v / 2 == q * p + r / 2 by {
      assert v == 2 * (q * p + r / 2) + r % 2;
    }
    assert r / 2 < p;
    assert (v / 2) / p == q && (v / 2) % p == r / 2 by {
      DivUnique(v / 2, p, q, r / 2);
    }
    assert r % 2 == v % 2 by {
      assert v == 2 * (q * p + r / 2) + r % 2;
    }
  }

  lemma DivDiv(v: int, a: int, b: int)
    requires a >= 1 && b >= 1
    ensures (v / a) / b == v / (a * b)
  {
    var q := (v / a) / b;
    var r := (v / a) % b;
    assert v == (q * b + r) * a + v % a;
    assert v == q * (a * b) + (r * a + v % a);
    assert r * a + v % a < a * b by {
      assert r * a <= (b - 1) * a;
    }
    DivUnique(v, a * b, q, r * a + v % a);
  }

  /** `v >> t` for non-negative v: t halvings. */
  function Shr(v: int, t: nat): int
    decreases t
  {
    if t == 0 then v else Shr(v / 2, t - 1)
  }

  lemma {:induction false} ShrDiv(v: int, t: nat)
    ensures Shr(v, t) == v / Pow2(t)
    decreases t
  {
    if t > 0 {
      ShrDiv(v / 2, t - 1);
      DivDiv(v, 2, Pow2(t - 1));
    }
  }

  /** The low a + b bits of v are its bits above position b followed by its low b bits. */
  lemma {:induction false} BitsSplit(v: int, a: nat, b: nat)
    ensures BitsOf(v, a + b) == BitsOf(v / Pow2(b), a) + BitsOf(v % Pow2(b), b)
    decreases b
  {
    if b > 0 {
      var p := Pow2(b - 1);
      BitsSplit(v / 2, a, b - 1);
      DivMod2(v, p);
      assert BitsOf(v % Pow2(b), b) == BitsOf((v / 2) % p, b - 1) + [v % 2 == 1];
    }
  }

  /** BitsSplit at a point t within the width, with rest = width - t bits above it. */
  lemma Split(value: int, width: nat, t: nat, rest: nat)
    requires rest + t == width
    ensures BitsOf(value, width) == BitsOf(value / Pow2(t), rest) + BitsOf(value % Pow2(t), t)
  {
    BitsSplit(value, rest, t);
  }

  /** x * 2^t + r with r below 2^t has the bits of x followed by the t bits of r. */
  lemma BitsConcat(x: int, r: int, a: nat, t: nat, n: nat)
    requires 0 <= r < Pow2(t) && n == a + t
    ensures BitsOf(x * Pow2(t) + r, n) == BitsOf(x, a) + BitsOf(r, t)
  {
    BitsSplit(x * Pow2(t) + r, a, t);
    DivUnique(x * Pow2(t) + r, Pow2(t), x, r);
  }

  /** The bits of a byte array, eight per byte. */
  function BytesBits(bytes: seq<int>): (r: seq<bool>)
    ensures |r| == 8 * |bytes|
  {
    if bytes == [] then [] else BytesBits(bytes[..|bytes| - 1]) + BitsOf(bytes[|bytes| - 1], 8)
  }

  lemma BytesBitsAppend(bytes: seq<int>, b: int)
    ensures BytesBits(bytes + [b]) == BytesBits(bytes) + BitsOf(b, 8)
  {
    assert (bytes + [b])[..|bytes|] == bytes;
  }

  /** A byte is determined by its eight bits. */
  lemma ByteBitsInjective(a: int, b: int)
    requires 0 <= a < 256 && 0 <= b < 256 && BitsOf(a, 8) == BitsOf(b, 8)
    ensures a == b
  {
    Pow2Byte();
    BitsRoundTrip(a, 8);
    BitsRoundTrip(b, 8);
  }

  /** Reads a bit string back as bytes, eight bits at a time; a tail shorter than a byte is dropped. */
  function Unpack(bits: seq<bool>): (r: seq<int>)
    ensures |r| == |bits| / 8
  {
    if |bits| < 8 then [] else Unpack(bits[..|bits| - 8]) + [BitsValue(bits[|bits| - 8..])]
  }

  /** Reading the bits of a byte array back gives the bytes. */
  lemma {:induction false} UnpackBytesBits(x: seq<int>)
    requires forall i :: 0 <= i < |x| ==> 0 <= x[i] < 256
    ensures Unpack(BytesBits(x)) == x
  {
    if x != [] {
      var n := |x|;
      var bits := BytesBits(x);
      BytesBitsLast(x, n);
      assert bits[..|bits| - 8] == BytesBits(x[..n - 1]);
      assert bits[|bits| - 8..] == BitsOf(x[n - 1], 8);
      UnpackBytesBits(x[..n - 1]);
      Pow2Byte();
      BitsRoundTrip(x[n - 1], 8);
      LastSplit(x);
    }
  }

  /** Bytes spell themselves: the bits of a byte array determine it. */
  lemma BytesBitsInjective(x: seq<int>, y: seq<int>)
    requires forall i :: 0 <= i < |x| ==> 0 <= x[i] < 256
    requires forall i :: 0 <= i < |y| ==> 0 <= y[i] < 256
    requires BytesBits(x) == BytesBits(y)
    ensures x == y
  {
    UnpackBytesBits(x);
    UnpackBytesBits(y);
  }

  /** Unpacking gives bytes. */
  lemma {:induction false} UnpackInRange(bits: seq<bool>)
    ensures forall i :: 0 <= i < |Unpack(bits)| ==> 0 <= Unpack(bits)[i] < 256
    decreases |bits|
  {
    if |bits| >= 8 {
      UnpackInRange(bits[..|bits| - 8]);
      BitsValueBound(bits[|bits| - 8..]);
      Pow2Byte();
    }
  }

  /** Whole bytes of bits unpack to a byte array whose bits they are. */
  lemma {:induction false} UnpackBits(bits: seq<bool>)
    requires |bits| % 8 == 0
    ensures forall i :: 0 <= i < |Unpack(bits)| ==> 0 <= Unpack(bits)[i] < 256
    ensures BytesBits(Unpack(bits)) == bits
    decreases |bits|
  {
    UnpackInRange(bits);
    if |bits| >= 8 {
      var init := bits[..|bits| - 8];
      var last := bits[|bits| - 8..];
      assert init + last == bits;
      UnpackBits(init);
      UnpackInRange(bits);
      BitsValueBound(last);
      Pow2Byte();
      BytesBitsAppend(Unpack(init), BitsValue(last));
      BitsOfValue(last);
    }
  }

  /** The bits of two byte arrays one after the other. */
  lemma {:induction false} BytesBitsConcat(x: seq<int>, y: seq<int>)
    ensures BytesBits(x + y) == BytesBits(x) + BytesBits(y)
    decreases |y|
  {
    if y == [] {
      assert x + y == x;
    } else {
      var init := y[..|y| - 1];
      LastSplit(y);
      BytesBitsConcat(x, init);
      ConcatStep(x, init, y[|y| - 1], y);
    }
  }

  /** BytesBitsConcat for y = init + [b], from the same fact for init. */
  lemma ConcatStep(x: seq<int>, init: seq<int>, b: int, y: seq<int>)
    requires y == init + [b]
    requires BytesBits(x + init) == BytesBits(x) + BytesBits(init)
    ensures BytesBits(x + y) == BytesBits(x) + BytesBits(y)
  {
    assert x + y == (x + init) + [b];
    BytesBitsAppend(x + init, b);
    BytesBitsAppend(init, b);
    Assoc(BytesBits(x), BytesBits(init), BitsOf(b, 8));
  }

  lemma BytesBitsLast(x: seq<int>, n: nat)
    requires n == |x| > 0
    ensures BytesBits(x)[..8 * (n - 1)] == BytesBits(x[..n - 1])
    ensures BytesBits(x)[8 * (n - 1)..] == BitsOf(x[n - 1], 8)
  {
  }

  lemma LastSplit(x: seq<int>)
    requires x != []
    ensures x == x[..|x| - 1] + [x[|x| - 1]]
  {
  }

  lemma NoBits(a: seq<bool>, value: int)
    ensures a + BitsOf(value, 0) == a
  {
  }

  lemma Assoc(a: seq<bool>, b: seq<bool>, c: seq<bool>)
    ensures (a + b) + c == a + (b + c)
  {
  }

  /** A digit a below A followed by a digit b below B, in base B, stays below A * B. */
  lemma PlaceBelow(a: int, b: int, A: int, B: int)
    requires 0 <= a < A && 0 <= b < B
    ensures 0 <= a * B + b < A * B
  {
    MulNonNegative(a, B);
    MulNonNegative(A - 1 - a, B);
    Distribute(A, a, B);
  }

  lemma MulNonNegative(x: int, y: int)
    requires x >= 0 && y >= 0
    ensures x * y >= 0
  {
  }

  lemma Distribute(A: int, a: int, B: int)
    ensures (A - 1 - a) * B == A * B - a * B - B
  {
  }

  /**
   * A byte with `head` in its top bits (below u), t more bits `value` below
   * it (below p) and q = 2^free zero bits at the bottom stays a byte and
   * gives head and value back.
   */
  lemma FillArith(head: int, value: int, u: int, p: int, q: int)
    requires u >= 1 && p >= 1 && q >= 1 && u * p * q == 256
    requires 0 <= head < u && 0 <= value < p
    ensures 0 <= (head * p + value) * q < 256
    ensures ((head * p + value) * q) % q == 0
    ensures ((head * p + value) * q) / q == head * p + value
  {
    var x := head * p + value;
    PlaceBelow(head, value, u, p);
    PlaceBelow(x, 0, u * p, q);
    DivUnique(x * q, q, x, 0);
  }

  lemma DivBelow(v: int, a: int, b: int)
    requires a >= 1 && 0 <= v < a * b
    ensures 0 <= v / a < b
  {
  }

  lemma MulOfDiv(v: int, p: int)
    requires p >= 1 && v % p == 0
    ensures v == (v / p) * p
  {
  }

  lemma Regroup(h: int, p: int, q: int, x: int)
    ensures h * (p * q) + x * q == (h * p + x) * q
  {
  }

  /** The used bits of the unfinished byte, above its free ones, number 8 - free. */
  lemma HeadBelow(acc: int, free: nat)
    requires free <= 8 && 0 <= acc < 256
    ensures 0 <= acc / Pow2(free) < Pow2(8 - free)
  {
    Pow2Sum(free, 8 - free, 8);
    Pow2Byte();
    DivBelow(acc, Pow2(free), Pow2(8 - free));
  }

  /** The bits of a width-bit value above its low t bits number rest = width - t. */
  lemma TopBelow(value: int, width: nat, t: nat, rest: nat)
    requires rest + t == width && 0 <= value < Pow2(width)
    ensures 0 <= value / Pow2(t) < Pow2(rest)
  {
    Pow2Sum(t, rest, width);
    DivBelow(value, Pow2(t), Pow2(rest));
  }

  /**
   * `o | r >> (t -= u)`: the byte that completes the unfinished one with
   * the top `free` bits of a width-bit value, t bits of which remain.
   */
  lemma FirstByte(acc: int, free: int, value: int, width: nat, t: nat)
    requires 1 <= free <= 8 && 0 <= acc < 256 && acc % Pow2(free) == 0
    requires 0 <= value < Pow2(width) && t + free == width
    ensures 0 <= acc + value / Pow2(t) < 256
    ensures BitsOf(acc + value / Pow2(t), 8)
         == BitsOf(acc / Pow2(free), 8 - free) + BitsOf(value / Pow2(t), width - t)
  {
    var head := acc / Pow2(free);
    var r := value / Pow2(t);
    HeadBelow(acc, free);
    TopBelow(value, width, t, free);
    MulOfDiv(acc, Pow2(free));
    Pow2Sum(8 - free, free, 8);
    Pow2Byte();
    FillArith(head, r, Pow2(8 - free), Pow2(free), 1);
    BitsConcat(head, r, 8 - free, free, 8);
  }

  /** The unfinished byte completed with the top bits of value joins the bytes. */
  lemma CompleteByte(bytes: seq<int>, acc: int, free: int, value: int, width: nat, t: nat, b: int, before: seq<bool>)
    requires forall i :: 0 <= i < |bytes| ==> 0 <= bytes[i] < 256
    requires 1 <= free <= 8 && 0 <= acc < 256 && acc % Pow2(free) == 0
    requires 0 <= value < Pow2(width) && t + free == width
    requires b == acc + value / Pow2(t)
    requires before == BytesBits(bytes) + BitsOf(acc / Pow2(free), 8 - free)
    ensures 0 <= b < 256
    ensures forall i :: 0 <= i < |bytes + [b]| ==> 0 <= (bytes + [b])[i] < 256
    ensures BytesBits(bytes + [b]) == before + BitsOf(value / Pow2(t), width - t)
  {
    FirstByte(acc, free, value, width, t);
    BytesBitsAppend(bytes, b);
    Assoc(BytesBits(bytes), BitsOf(acc / Pow2(free), 8 - free), BitsOf(value / Pow2(t), width - t));
  }

  /** The bits of value above bit lo: those above bit hi = lo + 8, then the byte between. */
  lemma NextByte(value: int, width: nat, lo: nat, hi: nat)
    requires hi == lo + 8 <= width
    ensures BitsOf(value / Pow2(lo), width - lo)
         == BitsOf(value / Pow2(hi), width - hi) + BitsOf((value / Pow2(lo)) % 256, 8)
  {
    Split(value / Pow2(lo), width - lo, 8, width - hi);
    Pow2Byte();
    Pow2Sum(lo, 8, hi);
    DivDiv(value, Pow2(lo), Pow2(8));
  }

  /** One step of the byte loop: the byte below the top hi bits of value joins the bytes. */
  lemma PushStep(out: seq<int>, value: int, width: nat, t: nat, hi: nat, prefix: seq<bool>, b: int)
    requires hi == t + 8 <= width
    requires forall i :: 0 <= i < |out| ==> 0 <= out[i] < 256
    requires BytesBits(out) == prefix + BitsOf(Shr(value, hi), width - hi)
    requires b == Shr(value, t) % 256
    ensures forall i :: 0 <= i < |out + [b]| ==> 0 <= (out + [b])[i] < 256
    ensures BytesBits(out + [b]) == prefix + BitsOf(Shr(value, t), width - t)
  {
    ShrDiv(value, t);
    ShrDiv(value, hi);
    NextByte(value, width, t, hi);
    BytesBitsAppend(out, b);
    Assoc(prefix, BitsOf(value / Pow2(hi), width - hi), BitsOf(b, 8));
  }

  /**
   * `o |= (r & (1 << t) - 1) << (u -= t)`: x, t bits long with t below
   * free, goes below the used bits of the unfinished byte, which keeps nf
   * bits free.
   */
  lemma Partial(acc: int, free: int, x: int, t: nat, nf: int, na: int)
    requires 1 <= free <= 8 && 0 <= acc < 256 && acc % Pow2(free) == 0
    requires 0 < t < free && 0 <= x < Pow2(t)
    requires nf == free - t && na == acc + x * Pow2(nf)
    ensures 1 <= nf <= 8 && 0 <= na < 256 && na % Pow2(nf) == 0
    ensures BitsOf(na / Pow2(nf), 8 - nf) == BitsOf(acc / Pow2(free), 8 - free) + BitsOf(x, t)
  {
    var head := acc / Pow2(free);
    HeadBelow(acc, free);
    MulOfDiv(acc, Pow2(free));
    Pow2Sum(t, nf, free);
    Regroup(head, Pow2(t), Pow2(nf), x);
    Pow2Product(8 - free, t, nf);
    FillArith(head, x, Pow2(8 - free), Pow2(t), Pow2(nf));
    BitsConcat(head, x, 8 - free, t, 8 - nf);
  }

  /** The number of zero bits that complete a string of k bits to whole bytes. */
  function FillWidth(k: nat): (r: nat)
    ensures r < 8 && (k + r) % 8 == 0
  {
    (8 - k % 8) % 8
  }

  lemma FillWidthOf(b: nat, k: nat, n: nat)
    requires k < 8 && n == 8 * b + k
    ensures k > 0 ==> FillWidth(n) == 8 - k
    ensures k == 0 ==> FillWidth(n) == 0
  {
    DivUnique(n, 8, b, k);
  }

  /** An unfinished byte with its free low bits zero: its used bits, then zeros. */
  lemma FlushByte(acc: int, free: int)
    requires 1 <= free < 8 && 0 <= acc < 256 && acc % Pow2(free) == 0
    ensures BitsOf(acc, 8) == BitsOf(acc / Pow2(free), 8 - free) + BitsOf(0, free)
  {
    Split(acc, 8, free, 8 - free);
  }

  /** The bytes after the flush spell the bits written, then zeros up to the byte boundary. */
  lemma FlushBits(bytes: seq<int>, acc: int, free: int, out: seq<int>)
    requires forall i :: 0 <= i < |bytes| ==> 0 <= bytes[i] < 256
    requires 1 <= free <= 8 && 0 <= acc < 256 && acc % Pow2(free) == 0
    requires out == if free < 8 then bytes + [acc] else bytes
    ensures forall i :: 0 <= i < |out| ==> 0 <= out[i] < 256
    ensures BytesBits(out)
      == BytesBits(bytes) + BitsOf(acc / Pow2(free), 8 - free)
         + BitsOf(0, FillWidth(|BytesBits(bytes) + BitsOf(acc / Pow2(free), 8 - free)|))
  {
    if free < 8 {
      InRangeAppend(bytes, acc);
      FlushPartial(bytes, acc, free, BytesBits(bytes), BitsOf(acc / Pow2(free), 8 - free));
    } else {
      FlushWhole(bytes, acc, BytesBits(bytes), BitsOf(acc / Pow2(free), 8 - free));
    }
  }

  lemma InRangeAppend(bytes: seq<int>, b: int)
    requires forall i :: 0 <= i < |bytes| ==> 0 <= bytes[i] < 256
    requires 0 <= b < 256
    ensures forall i :: 0 <= i < |bytes + [b]| ==> 0 <= (bytes + [b])[i] < 256
  {
  }

  lemma FlushPartial(bytes: seq<int>, acc: int, free: int, whole: seq<bool>, head: seq<bool>)
    requires forall i :: 0 <= i < |bytes| ==> 0 <= bytes[i] < 256
    requires 1 <= free < 8 && 0 <= acc < 256 && acc % Pow2(free) == 0
    requires whole == BytesBits(bytes) && head == BitsOf(acc / Pow2(free), 8 - free)
    ensures BytesBits(bytes + [acc]) == whole + head + BitsOf(0, FillWidth(|whole + head|))
  {
    var n := |whole + head|;
    assert FillWidth(n) == free by {
      assert n == 8 * |bytes| + (8 - free);
      FillWidthOf(|bytes|, 8 - free, n);
    }
    FlushAppend(bytes, acc, free, whole, head, BitsOf(0, free));
    ThenZeros(BytesBits(bytes + [acc]), whole, head, free, FillWidth(n));
  }

  lemma ThenZeros(out: seq<bool>, whole: seq<bool>, head: seq<bool>, free: nat, w: nat)
    requires out == whole + (head + BitsOf(0, free)) && w == free
    ensures out == whole + head + BitsOf(0, w)
  {
  }

  lemma FlushAppend(bytes: seq<int>, acc: int, free: int, whole: seq<bool>, head: seq<bool>, zeros: seq<bool>)
    requires forall i :: 0 <= i < |bytes| ==> 0 <= bytes[i] < 256
    requires 1 <= free < 8 && 0 <= acc < 256 && acc % Pow2(free) == 0
    requires whole == BytesBits(bytes) && head == BitsOf(acc / Pow2(free), 8 - free) && zeros == BitsOf(0, free)
    ensures BytesBits(bytes + [acc]) == whole + (head + zeros)
  {
    FlushByte(acc, free);
    BytesBitsAppend(bytes, acc);
  }

  lemma FlushWhole(bytes: seq<int>, acc: int, whole: seq<bool>, head: seq<bool>)
    requires forall i :: 0 <= i < |bytes| ==> 0 <= bytes[i] < 256
    requires whole == BytesBits(bytes) && head == BitsOf(acc / Pow2(8), 0)
    ensures BytesBits(bytes) == whole + head + BitsOf(0, FillWidth(|whole + head|))
  {
    NoBits(whole, acc / Pow2(8));
    NoBits(whole, 0);
    FillWidthOf(|bytes|, 0, |whole + head|);
  }

  /**
   * A state of the buffer: complete bytes, the unfinished byte `acc` and the
   * number of bits still `free` in it (the closure's `a`, `o` and `u`); the
   * free bits of the unfinished byte are zero.
   */
  ghost predicate WellFormed(bytes: seq<int>, acc: int, free: int) {
    (forall i :: 0 <= i < |bytes| ==> 0 <= bytes[i] < 256)
    && 1 <= free <= 8 && 0 <= acc < 256 && acc % Pow2(free) == 0
  }

  /** The bits a state holds: the complete bytes, then the used bits of the unfinished one. */
  ghost function Spelled(bytes: seq<int>, acc: int, free: int): seq<bool>
    requires WellFormed(bytes, acc, free)
  {
    BytesBits(bytes) + BitsOf(acc / Pow2(free), 8 - free)
  }

  /** `i(value, width)` on the state (a, o, u): the width low bits of value are appended. */
  method Write(bytes0: seq<int>, acc0: int, free0: int, value: nat, width: nat)
    returns (bytes: seq<int>, acc: int, free: int)
    requires WellFormed(bytes0, acc0, free0) && value < Pow2(width)
    ensures WellFormed(bytes, acc, free)
    ensures Spelled(bytes, acc, free) == Spelled(bytes0, acc0, free0) + BitsOf(value, width)
  {
    var t;
    bytes, acc, free, t := WriteTop(bytes0, acc0, free0, value, width);
    bytes, acc, free := WriteLow(bytes, acc, free, value, t);
    WriteJoin(Spelled(bytes0, acc0, free0), value, width, t);
  }

  /** The top width - t bits, then the low t bits, are the width bits of value. */
  lemma WriteJoin(before: seq<bool>, value: int, width: nat, t: nat)
    requires t <= width
    ensures before + BitsOf(value / Pow2(t), width - t) + BitsOf(value % Pow2(t), t) == before + BitsOf(value, width)
  {
    Split(value, width, t, width - t);
    Assoc(before, BitsOf(value / Pow2(t), width - t), BitsOf(value % Pow2(t), t));
  }

  /**
   * `if (t >= u) { a.push(o | r >> (t -= u)); ...; o = 0, u = 8 }`: when
   * value has at least as many bits as are free, the unfinished byte is
   * completed and whole bytes follow; t bits, fewer than are free, remain.
   */
  method WriteTop(bytes0: seq<int>, acc0: int, free0: int, value: nat, width: nat)
    returns (bytes: seq<int>, acc: int, free: int, t: nat)
    requires WellFormed(bytes0, acc0, free0) && value < Pow2(width)
    ensures WellFormed(bytes, acc, free) && t < free && t <= width
    ensures Spelled(bytes, acc, free) == Spelled(bytes0, acc0, free0) + BitsOf(value / Pow2(t), width - t)
  {
    if width >= free0 {
      bytes, t := PutBytes(bytes0, acc0, free0, value, width);
      acc, free := 0, 8;
      Emptied(bytes);
    } else {
      bytes, acc, free, t := bytes0, acc0, free0, width;
      NoBits(Spelled(bytes0, acc0, free0), value / Pow2(width));
    }
  }

  /** A state with no used bit in its unfinished byte holds the bits of its bytes. */
  lemma Emptied(bytes: seq<int>)
    requires forall i :: 0 <= i < |bytes| ==> 0 <= bytes[i] < 256
    ensures WellFormed(bytes, 0, 8) && Spelled(bytes, 0, 8) == BytesBits(bytes)
  {
    Pow2Byte();
    NoBits(BytesBits(bytes), 0 / Pow2(8));
  }

  /** The first byte completed with the top bits of value, then the whole bytes below it. */
  method PutBytes(bytes0: seq<int>, acc0: int, free0: int, value: nat, width: nat) returns (out: seq<int>, t: nat)
    requires WellFormed(bytes0, acc0, free0) && value < Pow2(width) && free0 <= width
    ensures t < 8 && t <= width
    ensures forall i :: 0 <= i < |out| ==> 0 <= out[i] < 256
    ensures BytesBits(out) == Spelled(bytes0, acc0, free0) + BitsOf(value / Pow2(t), width - t)
  {
    var t0 := width - free0;
    var b := acc0 + value / Pow2(t0);
    CompleteByte(bytes0, acc0, free0, value, width, t0, b, Spelled(bytes0, acc0, free0));
    ShrDiv(value, t0);
    out, t := PushBytes(bytes0 + [b], value, width, t0, Spelled(bytes0, acc0, free0));
    ShrDiv(value, t);
  }

  /** `while (t >= 8) a.push(r >> (t -= 8) & 255)`: whole bytes of value, from the top, while 8 or more of its bits remain. */
  method PushBytes(start: seq<int>, value: nat, width: nat, t0: nat, ghost prefix: seq<bool>)
    returns (out: seq<int>, t: nat)
    requires t0 <= width
    requires forall i :: 0 <= i < |start| ==> 0 <= start[i] < 256
    requires BytesBits(start) == prefix + BitsOf(Shr(value, t0), width - t0)
    ensures t < 8 && t <= width
    ensures forall i :: 0 <= i < |out| ==> 0 <= out[i] < 256
    ensures BytesBits(out) == prefix + BitsOf(Shr(value, t), width - t)
  {
    out, t := start, t0;
    while t >= 8
      invariant 0 <= t <= width
      invariant forall i :: 0 <= i < |out| ==> 0 <= out[i] < 256
      invariant BytesBits(out) == prefix + BitsOf(Shr(value, t), width - t)
      decreases t
    {
      ghost var hi := t;
      t := t - 8;
      var b := Shr(value, t) % 256;
      PushStep(out, value, width, t, hi, prefix, b);
      out := out + [b];
    }
  }

  /**
   * `t > 0 && (o |= (r & (1 << t) - 1) << (u -= t))`: the last t bits of
   * value, fewer than are free, go into the unfinished byte.
   */
  method WriteLow(bytes0: seq<int>, acc0: int, free0: int, value: nat, t: nat)
    returns (bytes: seq<int>, acc: int, free: int)
    requires WellFormed(bytes0, acc0, free0) && t < free0
    ensures WellFormed(bytes, acc, free)
    ensures Spelled(bytes, acc, free) == Spelled(bytes0, acc0, free0) + BitsOf(value % Pow2(t), t)
  {
    bytes := bytes0;
    if t > 0 {
      var x := value % Pow2(t);
      acc, free := acc0 + x * Pow2(free0 - t), free0 - t;
      LowStep(bytes0, acc0, free0, x, t, free, acc);
    } else {
      acc, free := acc0, free0;
      NoBits(Spelled(bytes0, acc0, free0), value % Pow2(t));
    }
  }

  lemma LowStep(bytes: seq<int>, acc: int, free: int, x: int, t: nat, nf: int, na: int)
    requires WellFormed(bytes, acc, free)
    requires 0 < t < free && 0 <= x < Pow2(t)
    requires nf == free - t && na == acc + x * Pow2(nf)
    ensures WellFormed(bytes, na, nf)
    ensures Spelled(bytes, na, nf) == Spelled(bytes, acc, free) + BitsOf(x, t)
  {
    Partial(acc, free, x, t, nf, na);
    Assoc(BytesBits(bytes), BitsOf(acc / Pow2(free), 8 - free), BitsOf(x, t));
  }

  /** The buffer of the data encoder, holding one state. */
  class BitWriter {
    var bytes: seq<int>
    var acc: int
    var free: int

    ghost predicate Valid()
      reads this
    {
      WellFormed(bytes, acc, free)
    }

    /** Everything written so far. */
    ghost function Bits(): seq<bool>
      reads this
      requires Valid()
    {
      Spelled(bytes, acc, free)
    }

    /** The number of bits written: eight per complete byte and the used bits of the unfinished one. */
    function Length(): (r: nat)
      reads this
      requires Valid()
      ensures r == |Bits()|
    {
      8 * |bytes| + 8 - free
    }

    /** `a = [], o = 0, u = 8`. */
    constructor ()
      ensures Valid() && bytes == [] && free == 8 && Bits() == []
    {
      bytes := [];
      acc := 0;
      free := 8;
      Emptied([]);
    }

    /** `i(value, width)`: append the width low bits of value. */
    method Put(value: nat, width: nat)
      requires Valid() && value < Pow2(width)
      modifies this
      ensures Valid()
      ensures Bits() == old(Bits()) + BitsOf(value, width)
    {
      bytes, acc, free := Write(bytes, acc, free, value, width);
    }

    /**
     * `u < 8 && a.push(o)`: the bytes written, the unfinished byte included
     * when it holds any bit; its unused low bits are zero.
     */
    method Flush() returns (out: seq<int>)
      requires Valid()
      ensures forall i :: 0 <= i < |out| ==> 0 <= out[i] < 256
      ensures BytesBits(out) == Bits() + BitsOf(0, FillWidth(|Bits()|))
    {
      if free < 8 {
        out := bytes + [acc];
      } else {
        out := bytes;
      }
      FlushBits(bytes, acc, free, out);
    }
  }
}
