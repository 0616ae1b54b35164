/**
 * Data modes of the QR encoder in main/static/js/qr-code.js (section 7.4 of
 * ISO/IEC 18004): the character classes of the numeric and alphanumeric
 * modes, the table of alphanumeric values, the automatic choice of a mode,
 * and the conversion of the text into the characters or bytes the chosen
 * mode encodes.
 */
module QrModes {
  import opened Wrappers
  import opened Text
  import opened QrCapacity
  import QrUtf8

  /** The 45 characters of the alphanumeric mode in value order (Table 5 of ISO/IEC 18004). */
  const AlnumChars: string := "0123456789" + "ABCDEFGHIJKLMNOPQRSTUVWXYZ" + " $%*+-./:"

  /** The value of an alphanumeric character: digits 0-9, letters 10-35, then space and $ % * + - . / :. */
  function AlnumValue(c: char): int {
    if IsDigit(c) then c as int - '0' as int
    else if IsAsciiUpper(c) then c as int - 'A' as int + 10
    else if c == ' ' then 36
    else if c == '$' then 37
    else if c == '%' then 38
    else if c == '*' then 39
    else if c == '+' then 40
    else if c == '-' then 41
    else if c == '.' then 42
    else if c == '/' then 43
    else if c == ':' then 44
    else -1
  }

  /** Table 5 and the encoder's character string agree: the character at index k has value k. */
  lemma AlnumCharsValues()
    ensures |AlnumChars| == 45
    ensures forall k :: 0 <= k < 45 ==> AlnumValue(AlnumChars[k]) == k
  {
    AlnumCharsValues0();
    AlnumCharsValues15();
    AlnumCharsValues30();
  }

  lemma AlnumCharsValues0()
    ensures forall k :: 0 <= k < 15 ==> AlnumValue(AlnumChars[k]) == k
  {
    forall k | 0 <= k < 15
      ensures AlnumValue(AlnumChars[k]) == k
    {
      if k == 0 {
      } else if k == 1 {
      } else if k == 2 {
      } else if k == 3 {
      } else if k == 4 {
      } else if k == 5 {
      } else if k == 6 {
      } else if k == 7 {
      } else if k == 8 {
      } else if k == 9 {
      } else if k == 10 {
      } else if k == 11 {
      } else if k == 12 {
      } else if k == 13 {
      } else if k == 14 {
      }
    }
  }

  lemma AlnumCharsValues15()
    ensures forall k :: 15 <= k < 30 ==> AlnumValue(AlnumChars[k]) == k
  {
    forall k | 15 <= k < 30
      ensures AlnumValue(AlnumChars[k]) == k
    {
      if k == 15 {
      } else if k == 16 {
      } else if k == 17 {
      } else if k == 18 {
      } else if k == 19 {
      } else if k == 20 {
      } else if k == 21 {
      } else if k == 22 {
      } else if k == 23 {
      } else if k == 24 {
      } else if k == 25 {
      } else if k == 26 {
      } else if k == 27 {
      } else if k == 28 {
      } else if k == 29 {
      }
    }
  }

  lemma AlnumCharsValues30()
    ensures forall k :: 30 <= k < 45 ==> AlnumValue(AlnumChars[k]) == k
  {
    forall k | 30 <= k < 45
      ensures AlnumValue(AlnumChars[k]) == k
    {
      if k == 30 {
      } else if k == 31 {
      } else if k == 32 {
      } else if k == 33 {
      } else if k == 34 {
      } else if k == 35 {
      } else if k == 36 {
      } else if k == 37 {
      } else if k == 38 {
      } else if k == 39 {
      } else if k == 40 {
      } else if k == 41 {
      } else if k == 42 {
      } else if k == 43 {
      } else if k == 44 {
      }
    }
  }

  /** A character of the class `[A-Z0-9 $%*+\-./:]`. */
  predicate IsAlnumChar(c: char) {
    IsDigit(c) || IsAsciiUpper(c)
    || c == ' ' || c == '$' || c == '%' || c == '*' || c == '+' || c == '-' || c == '.' || c == '/' || c == ':'
  }

  /** The characters of the class are exactly the 45 characters of the table. */
  lemma AlnumCharIffListed(c: char)
    ensures IsAlnumChar(c) <==> c in AlnumChars
  {
    AlnumCharsValues();
    if IsAlnumChar(c) {
      assert AlnumChars[AlnumValue(c)] == c;
    }
    if c in AlnumChars {
      var k :| 0 <= k < 45 && AlnumChars[k] == c;
      assert AlnumValue(c) == k;
    }
  }

  /** Exactly the characters of the class have a value. */
  lemma AlnumValueDefined(c: char)
    ensures AlnumValue(c) >= 0 <==> IsAlnumChar(c)
    ensures AlnumValue(c) < 45
  {
  }

  /** The character of value k: digits 0-9, letters 10-35, then space and $ % * + - . / :. */
  function AlnumChar(k: int): (c: char)
    requires 0 <= k < 45
    ensures IsAlnumChar(c) && AlnumValue(c) == k
  {
    if k < 10 then ('0' as int + k) as char
    else if k < 36 then ('A' as int + k - 10) as char
    else if k == 36 then ' '
    else if k == 37 then '$'
    else if k == 38 then '%'
    else if k == 39 then '*'
    else if k == 40 then '+'
    else if k == 41 then '-'
    else if k == 42 then '.'
    else if k == 43 then '/'
    else ':'
  }

  /** An alphanumeric character is the character of its value. */
  lemma AlnumCharOfValue(c: char)
    requires IsAlnumChar(c)
    ensures 0 <= AlnumValue(c) < 45 && AlnumChar(AlnumValue(c)) == c
  {
  }

  /** The character string of the encoder lists the characters in value order. */
  lemma AlnumCharsListed()
    ensures |AlnumChars| == 45
    ensures forall k :: 0 <= k < 45 ==> AlnumChars[k] == AlnumChar(k)
  {
    AlnumCharsValues();
    forall k | 0 <= k < 45
      ensures AlnumChars[k] == AlnumChar(k)
    {
      AlnumCharOfValue(AlnumChars[k]);
    }
  }

  /**
   * The loop that fills the lookup object `g`: the character at index u of
   * the alphanumeric string is given value u. The keys are then exactly the
   * characters of the class, each mapped to its value.
   */
  method BuildAlnumTable() returns (g: map<char, int>)
    ensures forall c :: c in g <==> IsAlnumChar(c)
    ensures forall c :: c in g ==> g[c] == AlnumValue(c)
  {
    AlnumCharsListed();
    g := map[];
    var u := 0;
    while u < 45
      invariant 0 <= u <= 45
      invariant TableUpTo(g, u)
    {
      TableStep(g, u, g[AlnumChars[u] := u]);
      g := g[AlnumChars[u] := u];
      u := u + 1;
    }
    TableComplete(g);
  }

  /** The table after u steps: the characters of value below u, each mapped to its value. */
  predicate TableUpTo(g: map<char, int>, u: int) {
    (forall c :: c in g <==> IsAlnumChar(c) && AlnumValue(c) < u)
    && (forall c :: c in g ==> g[c] == AlnumValue(c))
  }

  /** Entering the character of value u extends the table by one value. */
  lemma TableStep(g: map<char, int>, u: int, h: map<char, int>)
    requires 0 <= u < 45 && TableUpTo(g, u) && h == g[AlnumChar(u) := u]
    ensures TableUpTo(h, u + 1)
  {
    forall c
      ensures c in h <==> IsAlnumChar(c) && AlnumValue(c) < u + 1
    {
      if IsAlnumChar(c) && AlnumValue(c) == u {
        AlnumCharOfValue(c);
      }
    }
  }

  /** After all 45 values the table holds every character of the class. */
  lemma TableComplete(g: map<char, int>)
    requires TableUpTo(g, 45)
    ensures forall c :: c in g <==> IsAlnumChar(c)
    ensures forall c :: c in g ==> g[c] == AlnumValue(c)
  {
    forall c | IsAlnumChar(c)
      ensures c in g
    {
      AlnumValueDefined(c);
    }
  }

  /** `/^\d*$/`: only ASCII digits. */
  predicate IsNumeric(s: string) {
    forall i :: 0 <= i < |s| ==> IsDigit(s[i])
  }

  /** A slice of numeric text is numeric. */
  lemma NumericSlice(s: string, i: nat, j: nat)
    requires IsNumeric(s) && i <= j <= |s|
    ensures IsNumeric(s[i..j])
  {
    forall t | 0 <= t < j - i
      ensures IsDigit(s[i..j][t])
    {
      assert s[i..j][t] == s[i + t];
    }
  }

  /** `/^[A-Z0-9 $%*+\-./:]*$/`: only the 45 alphanumeric characters. */
  predicate IsAlphanumeric(s: string) {
    forall i :: 0 <= i < |s| ==> IsAlnumChar(s[i])
  }

  /** `/^[A-Za-z0-9 $%*+\-./:]*$/`: the alphanumeric characters and lower-case letters. */
  predicate IsAlphanumericAnyCase(s: string) {
    forall i :: 0 <= i < |s| ==> IsAlnumChar(s[i]) || IsAsciiLower(s[i])
  }

  /** Digits are alphanumeric characters, so numeric text is alphanumeric text. */
  lemma NumericIsAlphanumeric(s: string)
    requires IsNumeric(s)
    ensures IsAlphanumeric(s)
  {
    forall i | 0 <= i < |s| ensures IsAlnumChar(s[i]) {
      assert IsDigit(s[i]);
    }
  }

  /** Text passes the any-case check exactly when its upper-cased form is alphanumeric. */
  lemma AnyCaseMeansUpperAlphanumeric(s: string)
    ensures IsAlphanumericAnyCase(s) <==> IsAlphanumeric(Upper(s))
  {
    if IsAlphanumericAnyCase(s) {
      forall i | 0 <= i < |s| ensures IsAlnumChar(Upper(s)[i]) {
        assert Upper(s)[i] == UpperChar(s[i]);
      }
    }
    if IsAlphanumeric(Upper(s)) {
      forall i | 0 <= i < |s| ensures IsAlnumChar(s[i]) || IsAsciiLower(s[i]) {
        assert IsAlnumChar(Upper(s)[i]);
        if !IsAsciiLower(s[i]) {
          assert Upper(s)[i] == s[i];
        }
      }
    }
  }

  /** The mode chosen when none is requested: numeric, else alphanumeric, else octet. */
  function DetectMode(s: string): (r: Mode)
    ensures r == Numeric <==> IsNumeric(s)
    ensures r == Alphanumeric <==> !IsNumeric(s) && IsAlphanumeric(s)
    ensures r == Octet <==> !IsAlphanumeric(s)
  {
    if IsNumeric(s) then
      NumericIsAlphanumeric(s);
      Numeric
    else if IsAlphanumeric(s) then Alphanumeric
    else Octet
  }

  /** The text in the form its mode encodes: characters for numeric and alphanumeric, bytes for octet. */
  datatype Data = Chars(chars: string) | Bytes(bytes: seq<int>) {
    function Length(): nat {
      match this
      case Chars(c) => |c|
      case Bytes(b) => |b|
    }
  }

  /**
   * The conversion in `generate`: numeric text is kept, alphanumeric text
   * of either case is upper-cased, and octet text becomes UTF-8 bytes;
   * None when the text does not fit the mode ("invalid data format").
   */
  function Convert(mode: Mode, s: string): (r: Option<Data>)
    requires mode != Kanji
    ensures mode == Numeric ==> (r.Some? <==> IsNumeric(s))
    ensures mode == Numeric && r.Some? ==> r.value == Chars(s)
    ensures mode == Alphanumeric ==> (r.Some? <==> IsAlphanumericAnyCase(s))
    ensures mode == Alphanumeric && r.Some? ==> r.value == Chars(Upper(s)) && |r.value.chars| == |s| && IsAlphanumeric(r.value.chars)
    ensures mode == Octet ==> r == Some(Bytes(QrUtf8.Utf8(s)))
  {
    match mode
    case Numeric => if IsNumeric(s) then Some(Chars(s)) else None
    case Alphanumeric =>
      AnyCaseMeansUpperAlphanumeric(s);
      if IsAlphanumericAnyCase(s) then Some(Chars(Upper(s))) else None
    case Octet => Some(Bytes(QrUtf8.Utf8(s)))
  }

  /** Text always fits the mode detected for it, and is then left as it is or converted to UTF-8. */
  lemma DetectedModeAccepts(s: string)
    ensures Convert(DetectMode(s), s).Some?
    ensures DetectMode(s) != Octet ==> Convert(DetectMode(s), s) == Some(Chars(s))
  {
    match DetectMode(s)
    case Numeric =>
    case Alphanumeric =>
      assert IsAlphanumericAnyCase(s);
      UpperOfAlphanumeric(s);
    case Octet =>
  }

  /** Alphanumeric text has no lower-case letter, so upper-casing leaves it unchanged. */
  lemma UpperOfAlphanumeric(s: string)
    requires IsAlphanumeric(s)
    ensures Upper(s) == s
  {
    forall i | 0 <= i < |s|
      ensures !IsAsciiLower(s[i])
    {
      assert IsAlnumChar(s[i]);
    }
    UpperFixedIff(s);
  }
}
