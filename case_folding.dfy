/**
  `String.equalsIgnoreCase`, restricted to ASCII case folding.

  Java compares two strings of equal length character by character; two characters match
  when they are equal, when their upper-case forms are equal, or when the lower-case forms
  of their upper-case forms are equal.
 */
module CaseFolding {

  function ToUpperAscii(c: char): char
  {
    if 'a' <= c <= 'z' then (c as int - 32) as char else c
  }

  function ToLowerAscii(c: char): char
  {
    if 'A' <= c <= 'Z' then (c as int + 32) as char else c
  }

  predicate CharEqualsIgnoreCase(a: char, b: char)
  {
    || a == b
    || ToUpperAscii(a) == ToUpperAscii(b)
    || ToLowerAscii(ToUpperAscii(a)) == ToLowerAscii(ToUpperAscii(b))
  }

  predicate EqualsIgnoreCase(a: string, b: string)
  {
    |a| == |b| && forall i :: 0 <= i < |a| ==> CharEqualsIgnoreCase(a[i], b[i])
  }

  /** The string with every ASCII capital replaced by its small letter. */
  function Lower(s: string): string
  {
    if s == [] then [] else [ToLowerAscii(s[0])] + Lower(s[1..])
  }

  lemma CharEqualsIgnoreCaseIffSameLower(a: char, b: char)
    ensures CharEqualsIgnoreCase(a, b) <==> ToLowerAscii(a) == ToLowerAscii(b)
  {
  }

  /** Two strings are equal ignoring case exactly when their lower-case forms are equal. */
  lemma {:induction false} EqualsIgnoreCaseIffSameLower(a: string, b: string)
    ensures EqualsIgnoreCase(a, b) <==> Lower(a) == Lower(b)
  {
    if a == [] || b == [] {
      assert |Lower(a)| == 0 <==> a == [];
      assert |Lower(b)| == 0 <==> b == [];
    } else {
      EqualsIgnoreCaseIffSameLower(a[1..], b[1..]);
      CharEqualsIgnoreCaseIffSameLower(a[0], b[0]);
      assert Lower(a) == [ToLowerAscii(a[0])] + Lower(a[1..]);
      assert Lower(b) == [ToLowerAscii(b[0])] + Lower(b[1..]);
      if EqualsIgnoreCase(a, b) {
        assert EqualsIgnoreCase(a[1..], b[1..]) by {
          forall i | 0 <= i < |a[1..]|
            ensures CharEqualsIgnoreCase(a[1..][i], b[1..][i])
          {
            assert a[1..][i] == a[i + 1] && b[1..][i] == b[i + 1];
          }
        }
      }
      if Lower(a) == Lower(b) {
        assert ToLowerAscii(a[0]) == Lower(a)[0] == Lower(b)[0] == ToLowerAscii(b[0]);
        assert Lower(a[1..]) == Lower(a)[1..] == Lower(b)[1..] == Lower(b[1..]);
        forall i | 0 <= i < |a|
          ensures CharEqualsIgnoreCase(a[i], b[i])
        {
          if i > 0 {
            assert a[1..][i - 1] == a[i] && b[1..][i - 1] == b[i];
          }
        }
      }
    }
  }

  /** Equality ignoring case is an equivalence: reflexive, symmetric and transitive. */
  lemma EqualsIgnoreCaseIsEquivalence(a: string, b: string, c: string)
    ensures EqualsIgnoreCase(a, a)
    ensures EqualsIgnoreCase(a, b) ==> EqualsIgnoreCase(b, a)
    ensures EqualsIgnoreCase(a, b) && EqualsIgnoreCase(b, c) ==> EqualsIgnoreCase(a, c)
  {
  }
}
