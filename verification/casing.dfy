/** Culture-invariant upper-casing, which the mapper uses to match property
    names against column names. Only the ASCII letters are given case
    mappings here. */
module Casing {

  predicate IsLowerAscii(c: char) {
    'a' <= c <= 'z'
  }

  predicate IsUpperAscii(c: char) {
    'A' <= c <= 'Z'
  }

  function UpperChar(c: char): char {
    if IsLowerAscii(c) then (c as int - 32) as char else c
  }

  function LowerChar(c: char): char {
    if IsUpperAscii(c) then (c as int + 32) as char else c
  }

  /** String.ToUpperInvariant: every letter to its upper-case form, everything
      else unchanged. */
  function ToUpperInvariant(s: string): (r: string)
    ensures |r| == |s|
    ensures forall i :: 0 <= i < |r| ==> !IsLowerAscii(r[i])
    ensures forall i :: 0 <= i < |r| ==> LowerChar(r[i]) == LowerChar(s[i])
  {
    seq(|s|, i requires 0 <= i < |s| => UpperChar(s[i]))
  }

  /** Independent reference: two names spell the same word when case is ignored. */
  predicate EqualsIgnoreCase(a: string, b: string) {
    |a| == |b| && forall i :: 0 <= i < |a| ==> LowerChar(a[i]) == LowerChar(b[i])
  }

  /** Comparing upper-cased names is exactly case-insensitive comparison. */
  lemma UpperMatchIsCaseInsensitive(a: string, b: string)
    ensures ToUpperInvariant(a) == ToUpperInvariant(b) <==> EqualsIgnoreCase(a, b)
  {
    var ua, ub := ToUpperInvariant(a), ToUpperInvariant(b);
    if EqualsIgnoreCase(a, b) {
      forall i | 0 <= i < |a|
        ensures ua[i] == ub[i]
      {
        assert UpperChar(a[i]) == UpperChar(b[i]);
      }
    }
    if ua == ub {
      forall i | 0 <= i < |a|
        ensures LowerChar(a[i]) == LowerChar(b[i])
      {
        assert UpperChar(a[i]) == ua[i] == ub[i] == UpperChar(b[i]);
      }
    }
  }

  /** Upper-casing twice is upper-casing once. */
  lemma UpperIdempotent(s: string)
    ensures ToUpperInvariant(ToUpperInvariant(s)) == ToUpperInvariant(s)
  {
  }
}
