/** String.equalsIgnoreCase restricted to ASCII letters: two strings are
    equal ignoring case when they have the same length and agree character
    by character once 'A'..'Z' are folded to 'a'..'z'. */
module Ascii {

  /** Character.toLowerCase on ASCII: upper-case letters map to lower case,
      every other character is left alone. */
  function ToLower(c: char): (d: char)
    ensures 'A' <= c <= 'Z' ==> 'a' <= d <= 'z' && d as int - c as int == 32
    ensures !('A' <= c <= 'Z') ==> d == c
  {
    if 'A' <= c <= 'Z' then (c as int + 32) as char else c
  }

  /** Two characters fold to the same lower-case character exactly when they
      are equal or one is the upper-case form of the other letter. */
  lemma ToLowerFolds(c: char, d: char)
    ensures ToLower(c) == ToLower(d) <==>
      (|| c == d
       || ('A' <= c <= 'Z' && d as int == c as int + 32)
       || ('A' <= d <= 'Z' && c as int == d as int + 32))
  {
  }

  /** Folding twice is folding once. */
  lemma ToLowerIdempotent(c: char)
    ensures ToLower(ToLower(c)) == ToLower(c)
  {
  }

  /** The string with every character folded to lower case. */
  function LowerString(s: string): (r: string)
    ensures |r| == |s|
    ensures forall i :: 0 <= i < |s| ==> r[i] == ToLower(s[i])
  {
    if s == [] then [] else [ToLower(s[0])] + LowerString(s[1..])
  }

  /** String.equalsIgnoreCase: same length, and each pair of characters at
      the same position is equal after case folding. */
  predicate EqualsIgnoreCase(a: string, b: string)
  {
    |a| == |b| && (a == [] || (ToLower(a[0]) == ToLower(b[0]) && EqualsIgnoreCase(a[1..], b[1..])))
  }

  /** equalsIgnoreCase holds exactly when the lengths agree and every pair
      of characters at the same position folds to the same character. */
  lemma {:induction false} EqualsIgnoreCaseAt(a: string, b: string)
    ensures EqualsIgnoreCase(a, b) <==> |a| == |b| && forall i :: 0 <= i < |a| ==> ToLower(a[i]) == ToLower(b[i])
  {
    if |a| == |b| && a != [] {
      EqualsIgnoreCaseAt(a[1..], b[1..]);
      if ToLower(a[0]) == ToLower(b[0]) && EqualsIgnoreCase(a[1..], b[1..]) {
        forall i | 0 <= i < |a| ensures ToLower(a[i]) == ToLower(b[i]) {
          if i > 0 {
            assert a[1..][i - 1] == a[i] && b[1..][i - 1] == b[i];
          }
        }
      }
    }
  }

  /** Comparing ignoring case is comparing the lower-cased strings. */
  lemma EqualsIgnoreCaseIsLowerEquality(a: string, b: string)
    ensures EqualsIgnoreCase(a, b) <==> LowerString(a) == LowerString(b)
  {
    EqualsIgnoreCaseAt(a, b);
    if LowerString(a) == LowerString(b) {
      assert |a| == |b|;
      forall i | 0 <= i < |a| ensures ToLower(a[i]) == ToLower(b[i]) {
        assert LowerString(a)[i] == LowerString(b)[i];
      }
    }
  }

  /** Every string equals itself ignoring case. */
  lemma EqualsIgnoreCaseReflexive(s: string)
    ensures EqualsIgnoreCase(s, s)
  {
    EqualsIgnoreCaseAt(s, s);
  }
}
