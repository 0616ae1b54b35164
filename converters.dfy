/**
 * The URL path converter for game codes (main/games/converters.py): the path
 * segment must be four ASCII letters of either case, and both directions
 * upper-case the value.
 */
module Converters {
  import opened Text

  /** The converter's pattern `[A-Za-z]{4}`, matched against a whole path segment. */
  predicate MatchesCodePattern(segment: string) {
    |segment| == 4 && forall i :: 0 <= i < 4 ==> IsAsciiLetter(segment[i])
  }

  /** A canonical game code: four upper-case ASCII letters. */
  predicate IsCanonicalCode(code: string) {
    |code| == 4 && forall i :: 0 <= i < 4 ==> IsAsciiUpper(code[i])
  }

  /** `to_python`: the value handed to the view. */
  function ToPython(value: string): (r: string)
    ensures |r| == |value|
    ensures forall i :: 0 <= i < |r| ==> !IsAsciiLower(r[i])
    ensures MatchesCodePattern(value) ==> IsCanonicalCode(r)
  {
    Upper(value)
  }

  /** `to_url`: the value written into generated URLs, already in the form `to_python` hands to the view. */
  function ToUrl(value: string): (r: string)
    ensures |r| == |value|
    ensures ToPython(r) == r
    ensures MatchesCodePattern(value) ==> IsCanonicalCode(r)
  {
    UpperIdempotent(value);
    Upper(value)
  }

  /** Both directions are idempotent. */
  lemma ConvertersIdempotent(value: string)
    ensures ToPython(ToPython(value)) == ToPython(value)
    ensures ToUrl(ToUrl(value)) == ToUrl(value)
  {
    UpperIdempotent(value);
  }

  /** A URL produced by `to_url` is read back by `to_python` unchanged. */
  lemma UrlRoundTrip(value: string)
    ensures ToPython(ToUrl(value)) == ToUrl(value)
    ensures MatchesCodePattern(value) ==> MatchesCodePattern(ToUrl(value))
  {
    UpperIdempotent(value);
  }

  /** A canonical code is its own URL form, and every canonical code matches the pattern. */
  lemma CanonicalCodeIsFixed(code: string)
    requires IsCanonicalCode(code)
    ensures ToUrl(code) == code && ToPython(code) == code
    ensures MatchesCodePattern(code)
  {
    UpperFixedIff(code);
  }

  /** Two segments that differ only in letter case reach the view as the same code. */
  lemma CaseInsensitive(a: string, b: string)
    requires |a| == |b|
    requires forall i :: 0 <= i < |a| ==> UpperChar(a[i]) == UpperChar(b[i])
    ensures ToPython(a) == ToPython(b)
  {
  }
}
