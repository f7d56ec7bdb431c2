/**
 * What "Containing" and "IgnoreCase" in a derived query name mean: the query
 * upper-cases both the column and the argument and looks for the argument as
 * a contiguous substring. Upper-casing is ASCII only.
 */
module Text {

  function ToUpper(c: char): char {
    if 'a' <= c <= 'z' then (c as int - 32) as char else c
  }

  function ToLower(c: char): char {
    if 'A' <= c <= 'Z' then (c as int + 32) as char else c
  }

  function Upper(s: string): (u: string)
    ensures |u| == |s|
    ensures forall i :: 0 <= i < |s| ==> u[i] == ToUpper(s[i])
  {
    if s == [] then [] else [ToUpper(s[0])] + Upper(s[1..])
  }

  function Lower(s: string): (l: string)
    ensures |l| == |s|
    ensures forall i :: 0 <= i < |s| ==> l[i] == ToLower(s[i])
  {
    if s == [] then [] else [ToLower(s[0])] + Lower(s[1..])
  }

  /** p occurs in t starting at position i. */
  predicate OccursAt(p: string, t: string, i: int) {
    0 <= i && i + |p| <= |t| && t[i..i + |p|] == p
  }

  /** p is a contiguous part of t: a prefix of t or of some suffix of t. */
  predicate IsSubstring(p: string, t: string)
    decreases |t|
  {
    p <= t || (|t| > 0 && IsSubstring(p, t[1..]))
  }

  /** The match of LIKE '%pattern%' with both sides upper-cased. */
  predicate ContainsIgnoreCase(text: string, pattern: string) {
    IsSubstring(Upper(pattern), Upper(text))
  }

  /** The recursive definition agrees with "occurs at some position", in both directions. */
  lemma {:induction false} IsSubstringIff(p: string, t: string)
    ensures IsSubstring(p, t) <==> exists i :: OccursAt(p, t, i)
    decreases |t|
  {
    if p <= t {
      assert OccursAt(p, t, 0);
    } else if |t| == 0 {
      assert p != [];
      assert forall i :: !OccursAt(p, t, i);
    } else {
      IsSubstringIff(p, t[1..]);
      if IsSubstring(p, t[1..]) {
        var i :| OccursAt(p, t[1..], i);
        assert t[1..][i..i + |p|] == t[i + 1..i + 1 + |p|];
        assert OccursAt(p, t, i + 1);
      }
      forall i | OccursAt(p, t, i) ensures IsSubstring(p, t[1..]) {
        assert i != 0;
        assert t[1..][i - 1..i - 1 + |p|] == t[i..i + |p|];
        assert OccursAt(p, t[1..], i - 1);
      }
    }
  }

  lemma UpperIdempotent(s: string)
    ensures Upper(Upper(s)) == Upper(s)
  {
  }

  lemma UpperOfLower(s: string)
    ensures Upper(Lower(s)) == Upper(s)
  {
  }

  /** Changing the case of the pattern never changes whether it matches. */
  lemma PatternCaseIrrelevant(text: string, pattern: string)
    ensures ContainsIgnoreCase(text, Upper(pattern)) == ContainsIgnoreCase(text, pattern)
    ensures ContainsIgnoreCase(text, Lower(pattern)) == ContainsIgnoreCase(text, pattern)
  {
    UpperIdempotent(pattern);
    UpperOfLower(pattern);
  }

  /** Changing the case of the stored text never changes whether it matches. */
  lemma TextCaseIrrelevant(text: string, pattern: string)
    ensures ContainsIgnoreCase(Upper(text), pattern) == ContainsIgnoreCase(text, pattern)
    ensures ContainsIgnoreCase(Lower(text), pattern) == ContainsIgnoreCase(text, pattern)
  {
    UpperIdempotent(text);
    UpperOfLower(text);
  }

  /** The empty pattern matches every text. */
  lemma EmptyPatternMatches(text: string)
    ensures ContainsIgnoreCase(text, "")
  {
  }

  /** An item named "Mouse" is found by the search text "mou". */
  lemma MouseMatchesMou()
    ensures ContainsIgnoreCase("Mouse", "mou")
  {
  }
}
