/**
 * The byte-mode conversion of the QR encoder in main/static/js/qr-code.js:
 * text becomes UTF-8 bytes (RFC 3629) before it is encoded in octet mode.
 * The encoder walks the JavaScript string by `charCodeAt`, that is by
 * UTF-16 code unit, and gives each unit the UTF-8 byte pattern of its
 * value. Characters outside the Basic Multilingual Plane are two code units
 * (a surrogate pair) in JavaScript, so they come out as two 3-byte
 * sequences (CESU-8) instead of one 4-byte sequence; the 4-byte branch of
 * the conversion is never reached. The model keeps that conversion as
 * written (`OctetsAsWritten`) and defines the conversion by code point
 * (`Utf8`) that the rest of the QR model uses.
 *
 * Bytes and code units are `int`s; the JavaScript `|` of a lead pattern with
 * a shifted value that fits below it is written as `+`.
 */
module QrUtf8 {
  import opened Wrappers

  /** The UTF-16 code units of one character, as a JavaScript string holds it. */
  function Utf16(c: char): (r: seq<int>)
    ensures |r| == 1 <==> c as int < 0x10000
    ensures |r| == 1 ==> r[0] == c as int
    ensures |r| == 2 ==> 0xD800 <= r[0] < 0xDC00 <= r[1] < 0xE000
    ensures |r| == 2 ==> 0x10000 + (r[0] - 0xD800) * 0x400 + (r[1] - 0xDC00) == c as int
  {
    var v := c as int;
    if v < 0x10000 then [v] else [0xD800 + (v - 0x10000) / 0x400, 0xDC00 + (v - 0x10000) % 0x400]
  }

  /** The code units of a string, what `charCodeAt` visits one index at a time. */
  function CodeUnits(s: string): (r: seq<int>)
    ensures |r| >= |s|
    ensures forall i :: 0 <= i < |r| ==> 0 <= r[i] < 0x10000
  {
    if s == [] then [] else Utf16(s[0]) + CodeUnits(s[1..])
  }

  /** The code points of a string. */
  function CodePoints(s: string): (r: seq<int>)
    ensures |r| == |s|
    ensures forall i :: 0 <= i < |s| ==> r[i] == s[i] as int && 0 <= r[i] < 0x110000
  {
    seq(|s|, i requires 0 <= i < |s| => s[i] as int)
  }

  /** The bytes the conversion emits for one value u: 1, 2, 3 or 4 bytes by the size of u. */
  function UnitBytes(u: nat): (r: seq<int>)
    ensures 1 <= |r| <= 4
    ensures |r| == 1 <==> u < 0x80
    ensures |r| == 4 <==> u >= 0x10000
    ensures u < 0x110000 ==> forall i :: 0 <= i < |r| ==> 0 <= r[i] < 256
  {
    if u < 0x80 then [u]
    else if u < 0x800 then [0xC0 + u / 0x40, 0x80 + u % 0x40]
    else if u < 0x10000 then [0xE0 + u / 0x1000, 0x80 + (u / 0x40) % 0x40, 0x80 + u % 0x40]
    else [0xF0 + u / 0x40000, 0x80 + (u / 0x1000) % 0x40, 0x80 + (u / 0x40) % 0x40, 0x80 + u % 0x40]
  }

  /** The bytes of a sequence of values, one value after the other. */
  function Octets(units: seq<int>): seq<int>
    requires forall i :: 0 <= i < |units| ==> units[i] >= 0
  {
    if units == [] then [] else UnitBytes(units[0]) + Octets(units[1..])
  }

  /** Values below 0x110000 become bytes. */
  lemma {:induction false} OctetsInRange(units: seq<int>)
    requires forall i :: 0 <= i < |units| ==> 0 <= units[i] < 0x110000
    ensures forall i :: 0 <= i < |Octets(units)| ==> 0 <= Octets(units)[i] < 256
  {
    if units != [] {
      OctetsInRange(units[1..]);
    }
  }

  /** The conversion as the encoder writes it: by UTF-16 code unit. */
  function OctetsAsWritten(s: string): seq<int> {
    Octets(CodeUnits(s))
  }

  /** UTF-8 by code point: the conversion the byte mode is meant to perform. */
  function Utf8(s: string): (r: seq<int>)
    ensures forall i :: 0 <= i < |r| ==> 0 <= r[i] < 256
  {
    OctetsInRange(CodePoints(s));
    Octets(CodePoints(s))
  }

  /** The number of bytes a UTF-8 sequence with lead byte b has, or 0 when b cannot lead one. */
  function LeadLength(b: int): nat {
    if 0 <= b < 0x80 then 1
    else if 0xC0 <= b < 0xE0 then 2
    else if 0xE0 <= b < 0xF0 then 3
    else if 0xF0 <= b < 0xF8 then 4
    else 0
  }

  /** The value a sequence of one to four bytes carries. */
  function Value(b: seq<int>): int
    requires 1 <= |b| <= 4
  {
    if |b| == 1 then b[0]
    else if |b| == 2 then (b[0] - 0xC0) * 0x40 + (b[1] - 0x80)
    else if |b| == 3 then (b[0] - 0xE0) * 0x1000 + (b[1] - 0x80) * 0x40 + (b[2] - 0x80)
    else (b[0] - 0xF0) * 0x40000 + (b[1] - 0x80) * 0x1000 + (b[2] - 0x80) * 0x40 + (b[3] - 0x80)
  }

  /** A decoder: splits bytes at lead bytes and gives back the values, or None on a malformed sequence. */
  function Decode(b: seq<int>): Option<seq<int>>
    decreases |b|
  {
    if b == [] then Some([])
    else
      var n := LeadLength(b[0]);
      if n == 0 || |b| < n then None
      else match Decode(b[n..])
        case None => None
        case Some(rest) => Some([Value(b[..n])] + rest)
  }

  /** Each value below 0x110000 gets a lead byte that announces its length, and decodes back. */
  lemma UnitRoundTrip(u: nat)
    requires u < 0x110000
    ensures LeadLength(UnitBytes(u)[0]) == |UnitBytes(u)|
    ensures Value(UnitBytes(u)) == u
  {
    if u < 0x80 {
    } else if u < 0x800 {
      TwoByteRoundTrip(u);
    } else if u < 0x10000 {
      ThreeByteRoundTrip(u);
    } else {
      FourByteRoundTrip(u);
    }
  }

  lemma TwoByteRoundTrip(u: nat)
    requires 0x80 <= u < 0x800
    ensures LeadLength(0xC0 + u / 0x40) == 2
    ensures (u / 0x40) * 0x40 + u % 0x40 == u
  {
  }

  lemma ThreeByteRoundTrip(u: nat)
    requires 0x800 <= u < 0x10000
    ensures LeadLength(0xE0 + u / 0x1000) == 3
    ensures (u / 0x1000) * 0x1000 + ((u / 0x40) % 0x40) * 0x40 + u % 0x40 == u
  {
    var q := u / 0x40;
    assert u == q * 0x40 + u % 0x40;
    assert u / 0x1000 == q / 0x40;
    assert q == (q / 0x40) * 0x40 + q % 0x40;
  }

  lemma FourByteRoundTrip(u: nat)
    requires 0x10000 <= u < 0x110000
    ensures LeadLength(0xF0 + u / 0x40000) == 4
    ensures (u / 0x40000) * 0x40000 + ((u / 0x1000) % 0x40) * 0x1000 + ((u / 0x40) % 0x40) * 0x40 + u % 0x40 == u
  {
    var q := u / 0x40;
    var p := u / 0x1000;
    assert u == q * 0x40 + u % 0x40;
    assert p == q / 0x40;
    assert q == p * 0x40 + q % 0x40;
    assert u / 0x40000 == p / 0x40;
    assert p == (u / 0x40000) * 0x40 + p % 0x40;
  }

  /** Decoding the bytes of values below 0x110000 gives the values back. */
  lemma {:induction false} OctetsRoundTrip(units: seq<int>)
    requires forall i :: 0 <= i < |units| ==> 0 <= units[i] < 0x110000
    ensures Decode(Octets(units)) == Some(units)
  {
    if units != [] {
      var head := UnitBytes(units[0]);
      var b := Octets(units);
      assert b == head + Octets(units[1..]);
      UnitRoundTrip(units[0]);
      OctetsRoundTrip(units[1..]);
      assert b[..|head|] == head;
      assert b[|head|..] == Octets(units[1..]);
      assert [units[0]] + units[1..] == units;
    }
  }

  /** UTF-8 by code point decodes to the code points of the text. */
  lemma Utf8RoundTrip(s: string)
    ensures Decode(Utf8(s)) == Some(CodePoints(s))
  {
    OctetsRoundTrip(CodePoints(s));
  }

  /** The conversion as written decodes to the code units, not to the characters. */
  lemma AsWrittenDecodesToCodeUnits(s: string)
    ensures Decode(OctetsAsWritten(s)) == Some(CodeUnits(s))
  {
    OctetsRoundTrip(CodeUnits(s));
  }

  /** Within the Basic Multilingual Plane the code units are the code points. */
  lemma {:induction false} CodeUnitsOfBmp(s: string)
    requires forall i :: 0 <= i < |s| ==> s[i] as int < 0x10000
    ensures CodeUnits(s) == CodePoints(s)
  {
    if s != [] {
      CodeUnitsOfBmp(s[1..]);
      assert CodePoints(s) == [s[0] as int] + CodePoints(s[1..]);
    }
  }

  /** Within the Basic Multilingual Plane the conversion as written is UTF-8. */
  lemma AsWrittenIsUtf8OnBmp(s: string)
    requires forall i :: 0 <= i < |s| ==> s[i] as int < 0x10000
    ensures OctetsAsWritten(s) == Utf8(s)
  {
    CodeUnitsOfBmp(s);
  }

  /** U+1F600 is 4 bytes of UTF-8, but the conversion as written emits 6: two encoded surrogates. */
  lemma SupplementaryCharacter()
    ensures Utf8("\U{1F600}") == [0xF0, 0x9F, 0x98, 0x80]
    ensures OctetsAsWritten("\U{1F600}") == [0xED, 0xA0, 0xBD, 0xED, 0xB8, 0x80]
  {
    var s := "\U{1F600}";
    assert CodePoints(s) == [0x1F600];
    assert UnitBytes(0x1F600) == [0xF0, 0x9F, 0x98, 0x80];
    assert Octets([0x1F600]) == UnitBytes(0x1F600) + Octets([]);
    assert CodeUnits(s) == [0xD83D, 0xDE00] by {
      assert s[1..] == [];
    }
    assert UnitBytes(0xD83D) == [0xED, 0xA0, 0xBD];
    assert UnitBytes(0xDE00) == [0xED, 0xB8, 0x80];
    assert Octets([0xDE00]) == UnitBytes(0xDE00) + Octets([]);
    assert Octets([0xD83D, 0xDE00]) == UnitBytes(0xD83D) + Octets([0xDE00]);
  }
}
