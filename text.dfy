/**
 * The two string operations the filter relies on: lower-casing (`str.lower`,
 * restricted to ASCII) and substring containment (Python's `p in s`).
 */
module Text {

  /** ASCII lower-casing of one character; every other character is left alone. */
  function LowerChar(c: char): char {
    if 'A' <= c <= 'Z' then (c as int + 32) as char else c
  }

  predicate IsLowerChar(c: char) {
    !('A' <= c <= 'Z')
  }

  /** `s.lower()` for ASCII text. */
  function Lower(s: string): (r: string)
    ensures |r| == |s|
    ensures forall i :: 0 <= i < |s| ==> r[i] == LowerChar(s[i])
  {
    if s == [] then [] else [LowerChar(s[0])] + Lower(s[1..])
  }

  /** Lower-casing leaves no upper-case letter behind and changes nothing a second time. */
  lemma LowerIsLower(s: string)
    ensures forall i :: 0 <= i < |s| ==> IsLowerChar(Lower(s)[i])
    ensures Lower(Lower(s)) == Lower(s)
  {
  }

  /** `p` occurs in `s` starting at index `k`. */
  predicate OccursAt(s: string, p: string, k: int) {
    0 <= k && k + |p| <= |s| && s[k..k + |p|] == p
  }

  /** Python's `p in s` for strings: scan every start position, left to right. */
  predicate Contains(s: string, p: string)
    decreases |s|
  {
    if p <= s then true
    else if s == [] then false
    else Contains(s[1..], p)
  }

  /** An occurrence at `k` is found by the scan. */
  lemma {:induction false} OccursContains(s: string, p: string, k: int)
    requires OccursAt(s, p, k)
    ensures Contains(s, p)
    decreases k
  {
    if k == 0 {
      assert s[..|p|] == p;
    } else {
      assert s[1..][k - 1..k - 1 + |p|] == s[k..k + |p|];
      OccursContains(s[1..], p, k - 1);
    }
  }

  /** What the scan finds is an occurrence. */
  lemma {:induction false} ContainsOccurs(s: string, p: string)
    requires Contains(s, p)
    ensures exists k :: OccursAt(s, p, k)
    decreases |s|
  {
    if p <= s {
      assert s[0..|p|] == p;
      assert OccursAt(s, p, 0);
    } else {
      ContainsOccurs(s[1..], p);
      var k :| OccursAt(s[1..], p, k);
      assert s[k + 1..k + 1 + |p|] == s[1..][k..k + |p|];
      assert OccursAt(s, p, k + 1);
    }
  }

  /** `Contains` holds exactly when `p` occurs somewhere in `s`. */
  lemma ContainsIff(s: string, p: string)
    ensures Contains(s, p) <==> exists k :: OccursAt(s, p, k)
  {
    if Contains(s, p) {
      ContainsOccurs(s, p);
    }
    if exists k :: OccursAt(s, p, k) {
      var k :| OccursAt(s, p, k);
      OccursContains(s, p, k);
    }
  }

  /** Every text that contains "javascript" also contains "java". */
  lemma JavascriptContainsJava(s: string)
    requires Contains(s, "javascript")
    ensures Contains(s, "java")
  {
    ContainsIff(s, "javascript");
    var k :| OccursAt(s, "javascript", k);
    assert s[k..k + 4] == s[k..k + 10][..4];
    assert OccursAt(s, "java", k);
    ContainsIff(s, "java");
  }

  /** The description test of the filter: mentions "java" but not "javascript". */
  predicate IsJavaText(t: string) {
    Contains(t, "java") && !Contains(t, "javascript")
  }
}
