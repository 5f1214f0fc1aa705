/**
 Ordinal, case-insensitive string comparison, as used by the guard both for
 path containment and for the allowlisted process name.

 Characters (Unicode scalar values) are compared one by one after folding
 each to upper case; no culture rules and no normalisation are involved.
 Only the ASCII letters are folded here (see README, "Left out").
 */
module CaseFold {

  predicate IsAsciiLower(c: char) {
    'a' <= c <= 'z'
  }

  predicate IsAsciiUpper(c: char) {
    'A' <= c <= 'Z'
  }

  predicate IsAsciiLetter(c: char) {
    IsAsciiLower(c) || IsAsciiUpper(c)
  }

  /** Folds one character to its upper-case form. */
  function FoldChar(c: char): (u: char)
    ensures !IsAsciiLower(u)
    ensures IsAsciiLower(c) ==> IsAsciiUpper(u)
    ensures !IsAsciiLower(c) ==> u == c
    ensures IsAsciiLetter(c) <==> IsAsciiLetter(u)
  {
    if IsAsciiLower(c) then (c as int - 32) as char else c
  }

  /** Two characters fold alike exactly when they are equal or are the same
      ASCII letter written in the other case. */
  lemma SameFoldIffCaseVariant(a: char, b: char)
    ensures FoldChar(a) == FoldChar(b) <==>
              a == b
              || (IsAsciiLetter(a) && IsAsciiLetter(b)
                  && (a as int - b as int == 32 || b as int - a as int == 32))
  {
  }

  /** The upper-cased form of a string, one character at a time. */
  function Upper(s: string): (u: string)
    ensures |u| == |s|
    ensures forall i :: 0 <= i < |s| ==> u[i] == FoldChar(s[i])
  {
    if s == [] then [] else [FoldChar(s[0])] + Upper(s[1..])
  }

  /** String.Equals(a, b, StringComparison.OrdinalIgnoreCase): same length,
      and every pair of characters folds to the same character. */
  predicate EqualsIgnoreCase(a: string, b: string) {
    |a| == |b| && forall i :: 0 <= i < |a| ==> FoldChar(a[i]) == FoldChar(b[i])
  }

  /** Comparing ignoring case is comparing the upper-cased forms. */
  lemma EqualsIgnoreCaseIffSameUpper(a: string, b: string)
    ensures EqualsIgnoreCase(a, b) <==> Upper(a) == Upper(b)
  {
    if Upper(a) == Upper(b) {
      assert |a| == |b|;
      forall i | 0 <= i < |a|
        ensures FoldChar(a[i]) == FoldChar(b[i])
      {
        assert Upper(a)[i] == Upper(b)[i];
      }
    }
  }

  /** Upper-casing is idempotent. */
  lemma UpperIdempotent(s: string)
    ensures Upper(Upper(s)) == Upper(s)
  {
  }

  /** Case-insensitive equality is an equivalence relation. */
  lemma EqualsIgnoreCaseIsEquivalence(a: string, b: string, c: string)
    ensures EqualsIgnoreCase(a, a)
    ensures EqualsIgnoreCase(a, b) ==> EqualsIgnoreCase(b, a)
    ensures EqualsIgnoreCase(a, b) && EqualsIgnoreCase(b, c) ==> EqualsIgnoreCase(a, c)
  {
  }
}
