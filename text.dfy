/**
 * Case-insensitive comparison of strings, as `toLowerCase()` followed by `===`.
 * Lower-casing is modelled over the ASCII letters only.
 */
module Text {

  predicate IsUpper(c: char) {
    'A' <= c <= 'Z'
  }

  /** Lower-cases one character: upper-case ASCII letters map to their lower-case forms. */
  function LowerChar(c: char): (d: char)
    ensures !IsUpper(d)
    ensures IsUpper(c) ==> 'a' <= d <= 'z' && d as int == c as int + 32
    ensures !IsUpper(c) ==> d == c
  {
    if IsUpper(c) then (c as int + 32) as char else c
  }

  /** `s.toLowerCase()`. */
  function Lower(s: string): (r: string)
    ensures |r| == |s|
    ensures forall i :: 0 <= i < |s| ==> r[i] == LowerChar(s[i])
  {
    if s == [] then [] else [LowerChar(s[0])] + Lower(s[1..])
  }

  /** `a.toLowerCase() === b.toLowerCase()`. */
  predicate EqualsIgnoringCase(a: string, b: string) {
    Lower(a) == Lower(b)
  }

  /** Lower-casing twice is lower-casing once. */
  lemma LowerIsIdempotent(s: string)
    ensures Lower(Lower(s)) == Lower(s)
  {
  }

  /** Two strings are equal ignoring case exactly when they agree letter by letter after lower-casing. */
  lemma EqualsIgnoringCaseIff(a: string, b: string)
    ensures EqualsIgnoringCase(a, b) <==>
            |a| == |b| && forall i :: 0 <= i < |a| ==> LowerChar(a[i]) == LowerChar(b[i])
  {
  }

  /** `x` and `y` are the same character, or the same ASCII letter in the two cases. */
  predicate SameLetter(x: char, y: char) {
    x == y ||
    (IsUpper(x) && y as int == x as int + 32) ||
    (IsUpper(y) && x as int == y as int + 32)
  }

  /**
   * Case-insensitive equality, stated without lower-casing: same length, and at
   * each position the same character or the same letter in the other case.
   */
  lemma EqualsIgnoringCaseIffSameLetters(a: string, b: string)
    ensures EqualsIgnoringCase(a, b) <==>
            |a| == |b| && forall i :: 0 <= i < |a| ==> SameLetter(a[i], b[i])
  {
    EqualsIgnoringCaseIff(a, b);
    if |a| == |b| {
      assert forall i :: 0 <= i < |a| ==> (LowerChar(a[i]) == LowerChar(b[i]) <==> SameLetter(a[i], b[i]));
    }
  }

  /** Case-insensitive equality is an equivalence relation. */
  lemma EqualsIgnoringCaseIsEquivalence(a: string, b: string, c: string)
    ensures EqualsIgnoringCase(a, a)
    ensures EqualsIgnoringCase(a, b) ==> EqualsIgnoringCase(b, a)
    ensures EqualsIgnoringCase(a, b) && EqualsIgnoringCase(b, c) ==> EqualsIgnoringCase(a, c)
  {
  }

  /** Every string equals its lower-cased form, ignoring case. */
  lemma EqualsItsLowerCase(s: string)
    ensures EqualsIgnoringCase(s, Lower(s))
  {
  }
}
