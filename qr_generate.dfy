/**
 * `generate(r, a)` in main/static/js/qr-code.js: reads the options object
 * (version, ecclevel, mode, mask), chooses or checks the mode, converts the
 * data to it, checks the level, chooses or checks the version and checks
 * the mask, in that order, throwing the first failure; then calls
 * `L(r, f, s, i, h)` to build the matrix.
 *
 * CheckAsWritten is that sequence of checks as the source has it; Check is
 * the same sequence with four corrections (an unknown level, mask 8, and an
 * explicit version too small for the data are rejected, and octet text is
 * converted to UTF-8 by code point). Generate is the corrected `generate`:
 * it is proved against Check and builds the symbol with the corrected `L`,
 * which cuts the terminator to the bits that remain.
 */
module QrGenerate {
  import opened Wrappers
  import opened Text
  import opened QrGrid
  import opened QrCapacity
  import opened QrModes
  import opened QrEncoder
  import opened QrField
  import opened QrMaskSearch
  import opened QrLayout
  import opened QrPatterns
  import opened QrSymbol
  import opened QrCodewords
  import QrUtf8

  /** The exceptions `generate` throws; Crash stands for a TypeError the source runs into. */
  datatype Failure = InvalidMode | InvalidDataFormat | InvalidEccLevel | TooLargeData | InvalidVersion | InvalidMask | Crash {
    function Message(): string {
      match this
      case InvalidMode => "invalid or unsupported mode"
      case InvalidDataFormat => "invalid data format"
      case InvalidEccLevel => "invalid ECC level"
      case TooLargeData => "too large data"
      case InvalidVersion => "invalid version"
      case InvalidMask => "invalid mask"
      case Crash => "TypeError"
    }
  }

  /** The data argument: a string, or an array of byte values. */
  datatype Input = Text(s: string) | Raw(bytes: seq<bv8>)

  /** The options object; None is a missing property. */
  datatype Options = Options(version: Option<int>, ecclevel: Option<string>, mode: Option<string>, mask: Option<int>)

  /** The mode the options ask for: none (`-1`), one of the three names, or an unknown name. */
  datatype ModeRequest = AutoMode | NamedMode(mode: Mode) | UnknownMode

  /** The arguments `generate` passes to `L`: data, version, mode, level (None when undefined) and mask. */
  datatype Call = Call(data: Data, version: int, mode: Mode, ecc: Option<int>, mask: int)

  /** `a.version || -1`: a missing version, or 0, asks for the automatic choice. */
  function RequestedVersion(o: Options): (f: int)
    ensures o.version.None? ==> f == -1
    ensures o.version.Some? && o.version.value != 0 ==> f == o.version.value
  {
    if o.version.None? || o.version.value == 0 then -1 else o.version.value
  }

  /** `{L: 1, M: 0, Q: 3, H: 2}[name.toUpperCase()]`: the level index of a name of either case. */
  function LevelOf(name: string): (i: Option<int>)
    ensures i.Some? ==> 0 <= i.value < 4
    ensures i.Some? <==> Upper(name) in {"L", "M", "Q", "H"}
  {
    var n := Upper(name);
    if n == "L" then Some(1)
    else if n == "M" then Some(0)
    else if n == "Q" then Some(3)
    else if n == "H" then Some(2)
    else None
  }

  /** `u[(a.ecclevel || "L").toUpperCase()]`: a missing or empty level is L. */
  function RequestedLevel(o: Options): Option<int>
  {
    LevelOf(if o.ecclevel.None? || o.ecclevel.value == "" then "L" else o.ecclevel.value)
  }

  /** `a.mode ? o[a.mode.toLowerCase()] : -1`, with `o = {numeric: 1, alphanumeric: 2, octet: 4}`. */
  function RequestedMode(o: Options): (r: ModeRequest)
    ensures r.NamedMode? ==> r.mode != Kanji
  {
    if o.mode.None? || o.mode.value == "" then AutoMode
    else
      var n := Lower(o.mode.value);
      if n == "numeric" then NamedMode(Numeric)
      else if n == "alphanumeric" then NamedMode(Alphanumeric)
      else if n == "octet" then NamedMode(Octet)
      else UnknownMode
  }

  /** `"mask" in a ? a.mask : -1`. */
  function RequestedMask(o: Options): int
  {
    if o.mask.None? then -1 else o.mask.value
  }

  /**
   * The mode: with none asked for, text is numeric, else alphanumeric, else
   * octet, and an array is octet; an unknown name is "invalid or unsupported mode".
   */
  function ChooseMode(input: Input, o: Options): (r: Result<Mode, Failure>)
    ensures r.Ok? ==> r.value != Kanji
    ensures r.Err? <==> RequestedMode(o).UnknownMode?
    ensures r.Err? ==> r.error == InvalidMode
    ensures RequestedMode(o).AutoMode? && input.Raw? ==> r == Ok(Octet)
  {
    match RequestedMode(o)
    case UnknownMode => Err(InvalidMode)
    case NamedMode(mode) => Ok(mode)
    case AutoMode => Ok(if input.Text? then DetectMode(input.s) else Octet)
  }

  /**
   * The conversion to the mode with UTF-8 for text in octet mode: text that
   * does not fit is "invalid data format", and an array in numeric or
   * alphanumeric mode has no `match` to call.
   */
  function ConvertInput(mode: Mode, input: Input): (r: Result<Data, Failure>)
    requires mode != Kanji
    ensures r.Ok? ==> Encodable(mode, r.value)
    ensures input.Raw? ==> r == if mode == Octet then Ok(Bytes(Values(input.bytes))) else Err(Crash)
    ensures input.Text? ==> (r.Ok? <==> Convert(mode, input.s).Some?)
    ensures input.Text? && r.Err? ==> r.error == InvalidDataFormat
  {
    match input
    case Raw(b) => if mode == Octet then Ok(Bytes(Values(b))) else Err(Crash)
    case Text(s) =>
      match Convert(mode, s)
      case None => Err(InvalidDataFormat)
      case Some(d) => Ok(d)
  }

  /** The same conversion with octet text turned into bytes one UTF-16 code unit at a time, as the source does. */
  function ConvertInputAsWritten(mode: Mode, input: Input): (r: Result<Data, Failure>)
    requires mode != Kanji
    ensures input.Text? && mode == Octet ==> r == Ok(Bytes(QrUtf8.OctetsAsWritten(input.s)))
    ensures !(input.Text? && mode == Octet) ==> r == ConvertInput(mode, input)
  {
    if input.Text? && mode == Octet then Ok(Bytes(QrUtf8.OctetsAsWritten(input.s)))
    else ConvertInput(mode, input)
  }

  /**
   * `b(v, mode, i)`: the capacity of the symbol. With an undefined level the
   * table lookups give NaN; `NaN / 10 | 0` is 0 and every comparison with
   * NaN is false, so the numeric capacity is 2, the alphanumeric one 1 and
   * the octet one 0, at every version.
   */
  function CapacityAt(v: int, mode: Mode, ecc: Option<int>): int
    requires 1 <= v <= 40 && (ecc.Some? ==> 0 <= ecc.value < 4)
  {
    match ecc
    case Some(e) => Capacity(v, mode, e)
    case None => if mode == Numeric then 2 else if mode == Alphanumeric then 1 else 0
  }

  /** `for (f = v; f <= 40 && !(len <= b(f, mode, i)); ++f);`: the first version from v that holds len, or 41. */
  function FirstFit(len: nat, mode: Mode, ecc: Option<int>, v: int): (r: int)
    requires 1 <= v <= 41 && (ecc.Some? ==> 0 <= ecc.value < 4)
    ensures v <= r <= 41
    ensures r <= 40 ==> len <= CapacityAt(r, mode, ecc)
    ensures forall u :: v <= u < r ==> len > CapacityAt(u, mode, ecc)
    decreases 41 - v
  {
    if v > 40 || len <= CapacityAt(v, mode, ecc) then v else FirstFit(len, mode, ecc, v + 1)
  }

  /** The version search is the first fitting version: any version with the properties of FirstFit is it. */
  lemma FirstFitUnique(len: nat, mode: Mode, e: int, v: int)
    requires 0 <= e < 4 && 1 <= v <= 41
    requires v <= 40 ==> len <= Capacity(v, mode, e)
    requires forall u :: 1 <= u < v ==> len > Capacity(u, mode, e)
    ensures FirstFit(len, mode, Some(e), 1) == v
  {
    var r := FirstFit(len, mode, Some(e), 1);
    assert r <= 40 ==> len <= Capacity(r, mode, e);
    assert v <= 40 ==> len <= CapacityAt(v, mode, Some(e));
  }

  /** With an undefined level the search stops at once when the length is within the NaN capacity, and fails otherwise. */
  lemma {:induction false} UndefinedLevelSearch(len: nat, mode: Mode, v: int)
    requires 1 <= v <= 41
    ensures FirstFit(len, mode, None, v) == if v <= 40 && len <= CapacityAt(1, mode, None) then v else 41
    decreases 41 - v
  {
    if v <= 40 && len > CapacityAt(v, mode, None) {
      UndefinedLevelSearch(len, mode, v + 1);
    }
  }

  /** The mask check of the source, `-1 != h && (h < 0 || h > 8)`, which lets 8 through. */
  predicate MaskRejectedAsWritten(h: int) {
    h != -1 && (h < 0 || h > 8)
  }

  /** The mask check for the eight masks there are: anything but -1 and 0..7 is rejected. */
  predicate MaskRejected(h: int) {
    h != -1 && (h < 0 || h > 7)
  }

  /**
   * The version and mask checks of the source once mode, data and level
   * (None when undefined) are known: an explicit version is not checked
   * against the data, and mask 8 passes.
   */
  function CheckSizeAsWritten(data: Data, mode: Mode, ecc: Option<int>, o: Options): (r: Result<Call, Failure>)
    requires ecc.Some? ==> 0 <= ecc.value < 4
    ensures r.Ok? ==> 1 <= r.value.version <= 40 && !MaskRejectedAsWritten(r.value.mask)
    ensures r.Ok? ==> r.value.data == data && r.value.mode == mode && r.value.ecc == ecc && r.value.mask == RequestedMask(o)
  {
    var f := RequestedVersion(o);
    var v := if f < 0 then FirstFit(data.Length(), mode, ecc, 1) else f;
    if f < 0 && v > 40 then Err(TooLargeData)
    else if f >= 0 && (f < 1 || f > 40) then Err(InvalidVersion)
    else if MaskRejectedAsWritten(RequestedMask(o)) then Err(InvalidMask)
    else Ok(Call(data, v, mode, ecc, RequestedMask(o)))
  }

  /**
   * The checks of `generate` as written: mode, data, level, version, mask.
   * The level check `i < 0 || i > 3` never fires, since an unknown level is
   * undefined and comparisons with it are false.
   */
  function CheckAsWritten(input: Input, o: Options): (r: Result<Call, Failure>)
    ensures r.Ok? ==> 1 <= r.value.version <= 40 && !MaskRejectedAsWritten(r.value.mask)
  {
    match ChooseMode(input, o)
    case Err(f) => Err(f)
    case Ok(mode) =>
      match ConvertInputAsWritten(mode, input)
      case Err(f) => Err(f)
      case Ok(data) =>
        var ecc := RequestedLevel(o);
        if ecc.Some? && (ecc.value < 0 || ecc.value > 3) then Err(InvalidEccLevel)
        else CheckSizeAsWritten(data, mode, ecc, o)
  }

  /**
   * The version and mask checks with two corrections: an explicit version
   * too small for the data is "too large data", and mask 8 is "invalid
   * mask". What passes can be encoded: the data fit the version at the
   * level, and the mask is -1 or one of the eight masks.
   */
  function CheckSize(data: Data, mode: Mode, e: int, o: Options): (r: Result<Call, Failure>)
    requires 0 <= e < 4 && Encodable(mode, data)
    ensures r.Ok? ==> r.value.data == data && r.value.mode == mode && r.value.ecc == Some(e) && r.value.mask == RequestedMask(o)
    ensures r.Ok? ==> Fits(r.value.version, e, mode, data) && -1 <= r.value.mask < 8
  {
    var f := RequestedVersion(o);
    var v := if f < 0 then FirstFit(data.Length(), mode, Some(e), 1) else f;
    if f < 0 && v > 40 then Err(TooLargeData)
    else if f >= 0 && (f < 1 || f > 40) then Err(InvalidVersion)
    else if f >= 0 && data.Length() > Capacity(v, mode, e) then Err(TooLargeData)
    else if MaskRejected(RequestedMask(o)) then Err(InvalidMask)
    else
      FitsIffCapacity(v, e, mode, data);
      Ok(Call(data, v, mode, Some(e), RequestedMask(o)))
  }

  /**
   * The checks of `generate` in the same order, with an unknown level
   * rejected as "invalid ECC level" and the corrections of CheckSize.
   */
  function Check(input: Input, o: Options): (r: Result<Call, Failure>)
    ensures r.Ok? ==> r.value.ecc.Some? && Fits(r.value.version, r.value.ecc.value, r.value.mode, r.value.data)
    ensures r.Ok? ==> -1 <= r.value.mask < 8 && r.value.mask == RequestedMask(o)
  {
    match ChooseMode(input, o)
    case Err(f) => Err(f)
    case Ok(mode) =>
      match ConvertInput(mode, input)
      case Err(f) => Err(f)
      case Ok(data) =>
        match RequestedLevel(o)
        case None => Err(InvalidEccLevel)
        case Some(e) => CheckSize(data, mode, e, o)
  }

  /** Builds the tables `a`, `o` and `i` once, as the script does when it loads. */
  method Load() returns (exp: seq<bv8>, log: seq<int>, gens: seq<seq<int>>)
    ensures Tables(exp, log) && Generators(exp, log, gens)
  {
    var e, l := BuildTables();
    exp, log := e[..], l[..];
    gens := BuildGenerators(exp, log);
  }

  /** The version and mask checks of `generate`, with the version search loop. */
  method ValidateSize(data: Data, mode: Mode, e: int, o: Options) returns (r: Result<Call, Failure>)
    requires 0 <= e < 4 && Encodable(mode, data)
    ensures r == CheckSize(data, mode, e, o)
  {
    var len := data.Length();
    var v := RequestedVersion(o);
    if v < 0 {
      v := SmallestVersion(len, mode, e);
      FirstFitUnique(len, mode, e, v);
      if v > 40 {
        return Err(TooLargeData);
      }
    } else if v < 1 || v > 40 {
      return Err(InvalidVersion);
    } else if len > Capacity(v, mode, e) {
      return Err(TooLargeData);
    }
    var mask := RequestedMask(o);
    if MaskRejected(mask) {
      return Err(InvalidMask);
    }
    r := Ok(Call(data, v, mode, Some(e), mask));
  }

  /** The checks of `generate`, in the order of the source, throwing the first failure. */
  method Validate(input: Input, o: Options) returns (r: Result<Call, Failure>)
    ensures r == Check(input, o)
  {
    var mode := ChooseMode(input, o);
    if mode.Err? {
      return Err(mode.error);
    }
    var data := ConvertInput(mode.value, input);
    if data.Err? {
      return Err(data.error);
    }
    var level := RequestedLevel(o);
    if level.None? {
      return Err(InvalidEccLevel);
    }
    r := ValidateSize(data.value, mode.value, level.value, o);
  }

  /**
   * `generate(r, a)`: the checks, then `L`. It fails exactly as Check does;
   * otherwise call is the call Check accepts and the matrix is its finished
   * symbol, with the asked for mask or the first of least penalty.
   */
  method Generate(exp: seq<bv8>, log: seq<int>, gens: seq<seq<int>>, input: Input, o: Options)
    returns (r: Result<array2<bool>, Failure>, ghost call: Call, ghost chosen: int)
    requires Tables(exp, log) && Generators(exp, log, gens)
    ensures r.Err? ==> Check(input, o) == Err(r.error)
    ensures r.Ok? ==> Check(input, o) == Ok(call) && fresh(r.value)
    ensures r.Ok? ==> call.ecc.Some? && Fits(call.version, call.ecc.value, call.mode, call.data)
    ensures r.Ok? ==> 0 <= chosen < 8 && (call.mask >= 0 ==> chosen == call.mask)
    ensures r.Ok? && call.mask < 0 ==>
      FirstBest(Scores(PlacedSymbol(call.version, Stream(exp, log, gens, call.version, call.ecc.value, call.mode, call.data)),
                       Layout(call.version, true), call.ecc.value), chosen)
    ensures r.Ok? ==>
      GridOf(r.value) == SymbolOf(call.version, call.ecc.value, Stream(exp, log, gens, call.version, call.ecc.value, call.mode, call.data), chosen)
  {
    var checked := Validate(input, o);
    if checked.Err? {
      return Err(checked.error), Call(Chars([]), 0, Numeric, None, 0), 0;
    }
    var c := checked.value;
    call := c;
    var m;
    m, chosen := EncodeSymbol(exp, log, gens, c.data, c.version, c.mode, c.ecc.value, c.mask);
    r := Ok(m);
  }

  /** A negative version, like a missing one or 0, asks for the automatic choice; only a version above 40 is "invalid version". */
  lemma VersionRequests(data: Data, mode: Mode, e: int, o: Options)
    requires 0 <= e < 4 && Encodable(mode, data)
    ensures RequestedVersion(o) < 0 <==> o.version.None? || o.version.value <= 0
    ensures CheckSize(data, mode, e, o) == Err(InvalidVersion) <==> o.version.Some? && o.version.value > 40
    ensures CheckSizeAsWritten(data, mode, Some(e), o) == Err(InvalidVersion) <==> o.version.Some? && o.version.value > 40
  {
  }

  /** The automatic choice is the smallest version the data fit at the level. */
  lemma {:induction false} AutoVersionSmallest(data: Data, mode: Mode, e: int, o: Options)
    requires 0 <= e < 4 && Encodable(mode, data)
    requires CheckSize(data, mode, e, o).Ok? && RequestedVersion(o) < 0
    ensures forall u :: 1 <= u < CheckSize(data, mode, e, o).value.version ==> !Fits(u, e, mode, data)
  {
    var v := FirstFit(data.Length(), mode, Some(e), 1);
    assert CheckSize(data, mode, e, o).value.version == v;
    forall u | 1 <= u < v
      ensures !Fits(u, e, mode, data)
    {
      assert data.Length() > CapacityAt(u, mode, Some(e));
      FitsIffCapacity(u, e, mode, data);
    }
  }

  /** An explicit version that passes is kept as it is. */
  lemma ExplicitVersionKept(data: Data, mode: Mode, e: int, o: Options)
    requires 0 <= e < 4 && Encodable(mode, data)
    requires CheckSize(data, mode, e, o).Ok? && RequestedVersion(o) >= 0
    ensures CheckSize(data, mode, e, o).value.version == o.version.value
  {
  }

  /**
   * Data that fit some version, with the version left to `generate` and a
   * mask of -1 or one of the eight, are accepted.
   */
  lemma {:induction false} AutoVersionAccepts(data: Data, mode: Mode, e: int, o: Options, w: int)
    requires 0 <= e < 4 && Encodable(mode, data)
    requires RequestedVersion(o) < 0 && !MaskRejected(RequestedMask(o))
    requires 1 <= w <= 40 && Fits(w, e, mode, data)
    ensures CheckSize(data, mode, e, o).Ok?
  {
    FitsIffCapacity(w, e, mode, data);
    assert data.Length() <= CapacityAt(w, mode, Some(e));
  }

  /**
   * With the mode left to `generate`, text is never "invalid data format":
   * numeric and alphanumeric text is kept as it is and other text becomes UTF-8.
   */
  lemma AutoModeConverts(s: string, o: Options)
    requires RequestedMode(o).AutoMode?
    ensures ChooseMode(Text(s), o) == Ok(DetectMode(s))
    ensures ConvertInput(DetectMode(s), Text(s)) == Ok(if DetectMode(s) == Octet then Bytes(QrUtf8.Utf8(s)) else Chars(s))
  {
    DetectedModeAccepts(s);
  }

  /** What the corrected version and mask checks accept, the source accepts with the same call. */
  lemma SizeCorrectionsOnlyReject(data: Data, mode: Mode, e: int, o: Options)
    requires 0 <= e < 4 && Encodable(mode, data) && CheckSize(data, mode, e, o).Ok?
    ensures CheckSizeAsWritten(data, mode, Some(e), o) == CheckSize(data, mode, e, o)
  {
  }

  /**
   * The corrections only add failures: whatever Check accepts, the source
   * accepts with the same call, as long as octet text stays within the Basic
   * Multilingual Plane (beyond it the two conversions to bytes differ).
   */
  lemma CorrectionsOnlyReject(input: Input, o: Options)
    requires Check(input, o).Ok?
    requires input.Text? ==> forall i :: 0 <= i < |input.s| ==> input.s[i] as int < 0x10000
    ensures CheckAsWritten(input, o) == Check(input, o)
  {
    var mode := ChooseMode(input, o).value;
    var data := ConvertInput(mode, input).value;
    if input.Text? {
      QrUtf8.AsWrittenIsUtf8OnBmp(input.s);
    }
    assert ConvertInputAsWritten(mode, input) == Ok(data);
    SizeCorrectionsOnlyReject(data, mode, RequestedLevel(o).value, o);
  }

  /** A generated symbol that has room for its stream reads back as the mode and data of the checked call. */
  lemma GeneratedReadsBack(exp: seq<bv8>, log: seq<int>, gens: seq<seq<int>>, call: Call, k: int)
    requires Tables(exp, log) && Generators(exp, log, gens)
    requires call.ecc.Some? && Fits(call.version, call.ecc.value, call.mode, call.data) && 0 <= k < 8
    requires Room(call.version, call.ecc.value)
    ensures ReadSymbol(SymbolOf(call.version, call.ecc.value, Stream(exp, log, gens, call.version, call.ecc.value, call.mode, call.data), k), call.version)
      == Some((call.mode, call.data))
  {
    SymbolDecodes(exp, log, gens, call.version, call.ecc.value, call.mode, call.data, k);
  }

  /** Version 1 at level L holds 41 digits or 17 bytes. */
  lemma Version1L()
    ensures Capacity(1, Numeric, 1) == 41 && Capacity(1, Octet, 1) == 17
  {
    assert DataBits(1, 1) == 152;
  }

  /** The source accepts mask 8, for which there is no mask function; the corrected check rejects it. */
  lemma MaskEightAccepted()
    ensures CheckSizeAsWritten(Chars("1"), Numeric, Some(1), Options(None, None, None, Some(8))) == Ok(Call(Chars("1"), 1, Numeric, Some(1), 8))
    ensures CheckSize(Chars("1"), Numeric, 1, Options(None, None, None, Some(8))) == Err(InvalidMask)
  {
    assert IsNumeric("1");
    Version1L();
    assert FirstFit(1, Numeric, Some(1), 1) == 1;
  }

  /**
   * The source lets an unknown level through to `L` when the data are short
   * enough for the capacity NaN gives, and calls longer data "too large";
   * the corrected check says "invalid ECC level" for both.
   */
  lemma UnknownLevelAccepted()
    ensures CheckAsWritten(Text("12"), Options(None, Some("X"), None, None)) == Ok(Call(Chars("12"), 1, Numeric, None, -1))
    ensures CheckAsWritten(Text("123"), Options(None, Some("X"), None, None)) == Err(TooLargeData)
    ensures Check(Text("12"), Options(None, Some("X"), None, None)) == Err(InvalidEccLevel)
    ensures Check(Text("123"), Options(None, Some("X"), None, None)) == Err(InvalidEccLevel)
  {
    assert Upper("X") == "X";
    assert IsNumeric("12") && IsNumeric("123");
    UndefinedLevelSearch(2, Numeric, 1);
    UndefinedLevelSearch(3, Numeric, 1);
  }

  /**
   * The source does not check an explicit version against the data: 18
   * bytes with version 1 at level L pass, though version 1-L holds 17; the
   * corrected check says "too large data".
   */
  lemma ExplicitVersionOverflow(b: seq<bv8>)
    requires |b| == 18
    ensures CheckSizeAsWritten(Bytes(Values(b)), Octet, Some(1), Options(Some(1), None, None, None)).Ok?
    ensures !Fits(1, 1, Octet, Bytes(Values(b)))
    ensures CheckSize(Bytes(Values(b)), Octet, 1, Options(Some(1), None, None, None)) == Err(TooLargeData)
  {
    Version1L();
    FitsIffCapacity(1, 1, Octet, Bytes(Values(b)));
  }
}
