/** String operations the services delegate to MongoDB: the case-insensitive
    `$regex` search over `name`/`notes` (for search text without regular
    expression metacharacters) and the binary ordering used when sorting on
    `name`. Case folding covers the ASCII letters only. */
module Text {

  function Lower(c: char): char {
    if 'A' <= c <= 'Z' then (c as int + 32) as char else c
  }

  function LowerAll(s: string): (r: string)
    ensures |r| == |s|
    ensures forall i :: 0 <= i < |s| ==> r[i] == Lower(s[i])
  {
    seq(|s|, i requires 0 <= i < |s| => Lower(s[i]))
  }

  /** `needle` occurs in `s` at position `i`, ignoring case. */
  predicate OccursAt(s: string, needle: string, i: int) {
    0 <= i && i + |needle| <= |s| && LowerAll(s[i..i + |needle|]) == LowerAll(needle)
  }

  /** The regex engine's scan: try position 0, then search the rest. */
  predicate ContainsIgnoringCase(s: string, needle: string)
    decreases |s|
  {
    OccursAt(s, needle, 0) || (|s| > 0 && ContainsIgnoringCase(s[1..], needle))
  }

  lemma OccursAtShift(s: string, needle: string, i: int)
    requires |s| > 0 && i >= 0
    ensures OccursAt(s[1..], needle, i) <==> OccursAt(s, needle, i + 1)
  {
    if i + |needle| <= |s| - 1 {
      assert s[1..][i..i + |needle|] == s[i + 1..i + 1 + |needle|];
    }
  }

  /** The scan finds the text exactly when it occurs somewhere, ignoring case. */
  lemma {:induction false} ContainsIgnoringCaseIff(s: string, needle: string)
    ensures ContainsIgnoringCase(s, needle) <==> exists i :: OccursAt(s, needle, i)
    decreases |s|
  {
    if |s| > 0 {
      ContainsIgnoringCaseIff(s[1..], needle);
      if ContainsIgnoringCase(s[1..], needle) {
        var i :| OccursAt(s[1..], needle, i);
        OccursAtShift(s, needle, i);
      }
      if i :| OccursAt(s, needle, i) && i > 0 {
        OccursAtShift(s, needle, i - 1);
      }
    } else if i :| OccursAt(s, needle, i) {
      assert i == 0;
    }
  }

  /** Code-point lexicographic order (`a` sorts before `b` or equals it). */
  predicate LexLeq(a: string, b: string)
    decreases |a|
  {
    |a| == 0 || (|b| > 0 && (a[0] < b[0] || (a[0] == b[0] && LexLeq(a[1..], b[1..]))))
  }

  lemma LexLeqTotal(a: string, b: string)
    ensures LexLeq(a, b) || LexLeq(b, a)
    decreases |a|
  {
    if |a| > 0 && |b| > 0 && a[0] == b[0] {
      LexLeqTotal(a[1..], b[1..]);
    }
  }

  lemma LexLeqTransitive(a: string, b: string, c: string)
    requires LexLeq(a, b) && LexLeq(b, c)
    ensures LexLeq(a, c)
    decreases |a|
  {
    if |a| > 0 && a[0] == b[0] && b[0] == c[0] {
      LexLeqTransitive(a[1..], b[1..], c[1..]);
    }
  }
}
