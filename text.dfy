/** Python string built-ins used by the adapter: `sub in s`, `str.replace`,
    `str(int)` and `str.lower`, over strings as sequences of characters. */
module Text {

  /** `sub` starts at index `i` of `s`. */
  predicate OccursAt(s: string, sub: string, i: nat) {
    i + |sub| <= |s| && s[i..i + |sub|] == sub
  }

  /** Python's `sub in s`; the empty string occurs in every string. */
  predicate Contains(s: string, sub: string) {
    exists i: nat :: i <= |s| && OccursAt(s, sub, i)
  }

  /** Python's `s.replace(pat, rep)`: scan left to right, replace each
      leftmost occurrence and resume after it, so occurrences never overlap
      and the text produced by a replacement is never scanned again. An
      empty `pat` matches before every character and at the end. */
  function ReplaceAll(s: string, pat: string, rep: string): (r: string)
    ensures |pat| > 0 && |rep| <= |pat| ==> |r| <= |s|
    ensures |pat| > 0 && |rep| == |pat| ==> |r| == |s|
    decreases |s|
  {
    if |pat| == 0 then Interleave(s, rep)
    else if |s| < |pat| then s
    else if s[..|pat|] == pat then rep + ReplaceAll(s[|pat|..], pat, rep)
    else [s[0]] + ReplaceAll(s[1..], pat, rep)
  }

  /** `rep` before each character of `s` and once more at the end. */
  function Interleave(s: string, rep: string): string {
    if s == [] then rep else rep + [s[0]] + Interleave(s[1..], rep)
  }

  lemma OccursAtShift(s: string, sub: string, i: nat)
    requires 0 < |s| && OccursAt(s[1..], sub, i)
    ensures OccursAt(s, sub, i + 1)
  {
    assert s[i + 1..i + 1 + |sub|] == s[1..][i..i + |sub|];
  }

  /** Replacing a pattern that does not occur leaves the text unchanged. */
  lemma {:induction false} ReplaceAbsent(s: string, pat: string, rep: string)
    requires |pat| > 0 && !Contains(s, pat)
    ensures ReplaceAll(s, pat, rep) == s
    decreases |s|
  {
    if |s| >= |pat| {
      assert OccursAt(s, pat, 0) == (s[..|pat|] == pat);
      if !Contains(s[1..], pat) {
        ReplaceAbsent(s[1..], pat, rep);
      } else {
        var i: nat :| i <= |s[1..]| && OccursAt(s[1..], pat, i);
        OccursAtShift(s, pat, i);
        assert false;
      }
    }
  }

  /** The leftmost occurrence is replaced and the scan resumes after it: when
      `pat` starts nowhere inside `a`, the text `a` before its first
      occurrence is kept, and the replacement is never scanned again. */
  lemma {:induction false} ReplaceLeftmost(a: string, pat: string, b: string, rep: string)
    requires |pat| > 0
    requires forall j: nat :: j < |a| ==> !OccursAt(a + pat + b, pat, j)
    ensures ReplaceAll(a + pat + b, pat, rep) == a + rep + ReplaceAll(b, pat, rep)
    decreases |a|
  {
    if a == [] {
      assert a + pat + b == pat + b;
      ReplaceAtStart(pat, b, rep);
    } else {
      var s := a + pat + b;
      assert s == [a[0]] + (a[1..] + pat + b);
      assert ReplaceAll(s, pat, rep) == [a[0]] + ReplaceAll(a[1..] + pat + b, pat, rep) by {
        assert !OccursAt(s, pat, 0);
        ReplaceKeep(s, pat, rep);
        assert s[1..] == a[1..] + pat + b;
      }
      forall j: nat | j < |a| - 1
        ensures !OccursAt(a[1..] + pat + b, pat, j)
      {
        if OccursAt(a[1..] + pat + b, pat, j) {
          OccursAtShift(s, pat, j);
        }
      }
      ReplaceLeftmost(a[1..], pat, b, rep);
      ConsAssoc(a, rep, ReplaceAll(b, pat, rep));
    }
  }

  /** Regrouping after the first character. */
  lemma ConsAssoc(a: string, y: string, z: string)
    requires a != []
    ensures [a[0]] + (a[1..] + y + z) == a + y + z
  {
    assert [a[0]] + a[1..] == a;
  }

  /** A text that starts with the pattern starts with the replacement. */
  lemma ReplaceAtStart(pat: string, b: string, rep: string)
    requires |pat| > 0
    ensures ReplaceAll(pat + b, pat, rep) == rep + ReplaceAll(b, pat, rep)
  {
    assert (pat + b)[..|pat|] == pat;
    assert (pat + b)[|pat|..] == b;
  }

  /** A text that does not start with the pattern keeps its first character. */
  lemma ReplaceKeep(s: string, pat: string, rep: string)
    requires |pat| > 0 && |s| > 0 && !OccursAt(s, pat, 0)
    ensures ReplaceAll(s, pat, rep) == [s[0]] + ReplaceAll(s[1..], pat, rep)
  {
    if |s| < |pat| {
      assert ReplaceAll(s[1..], pat, rep) == s[1..];
      assert s == [s[0]] + s[1..];
    }
  }

  /** Replacing a pattern by itself leaves the text unchanged. */
  lemma {:induction false} ReplaceSelf(s: string, pat: string)
    ensures ReplaceAll(s, pat, pat) == s
    decreases |s|
  {
    if |pat| == 0 {
      InterleaveEmpty(s);
    } else if |s| < |pat| {
    } else if s[..|pat|] == pat {
      ReplaceSelf(s[|pat|..], pat);
      assert s == s[..|pat|] + s[|pat|..];
    } else {
      ReplaceSelf(s[1..], pat);
      assert s == [s[0]] + s[1..];
    }
  }

  lemma {:induction false} InterleaveEmpty(s: string)
    ensures Interleave(s, "") == s
  {
    if s != [] {
      InterleaveEmpty(s[1..]);
      assert s == [s[0]] + s[1..];
    }
  }

  /** The result of appending `suffix` contains every substring of `suffix`. */
  lemma ContainsSuffix(s: string, suffix: string, sub: string, i: nat)
    requires OccursAt(suffix, sub, i)
    ensures Contains(s + suffix, sub)
  {
    assert (s + suffix)[|s| + i..|s| + i + |sub|] == suffix[i..i + |sub|];
    assert OccursAt(s + suffix, sub, |s| + i);
  }

  /** The decimal digit for `d`. */
  function Digit(d: nat): (c: char)
    requires d < 10
    ensures '0' <= c <= '9'
  {
    ('0' as int + d) as char
  }

  /** Python's `str(n)` for a non-negative integer: decimal, no leading zeros. */
  function NatStr(n: nat): (s: string)
    ensures |s| >= 1 && (n >= 10 ==> |s| >= 2)
    ensures forall k :: 0 <= k < |s| ==> '0' <= s[k] <= '9'
  {
    if n < 10 then [Digit(n)] else NatStr(n / 10) + [Digit(n % 10)]
  }

  /** Distinct numbers print differently. */
  lemma {:induction false} NatStrInjective(a: nat, b: nat)
    requires NatStr(a) == NatStr(b)
    ensures a == b
  {
    if a >= 10 && b >= 10 {
      var sa, sb := NatStr(a), NatStr(b);
      assert sa[..|sa| - 1] == NatStr(a / 10);
      assert sb[..|sb| - 1] == NatStr(b / 10);
      NatStrInjective(a / 10, b / 10);
      assert Digit(a % 10) == sa[|sa| - 1] == Digit(b % 10);
    } else if a < 10 && b < 10 {
      assert Digit(a) == NatStr(a)[0];
    }
  }

  /** ASCII lower-casing of one character. */
  function LowerChar(c: char): (d: char)
    ensures !('A' <= d <= 'Z')
  {
    if 'A' <= c <= 'Z' then (c as int - 'A' as int + 'a' as int) as char else c
  }

  /** Python's `s.lower()`, restricted to ASCII letters. */
  function Lower(s: string): (r: string)
    ensures |r| == |s|
    ensures forall k :: 0 <= k < |r| ==> !('A' <= r[k] <= 'Z')
    ensures forall k :: 0 <= k < |s| && !('A' <= s[k] <= 'Z') ==> r[k] == s[k]
  {
    seq(|s|, k requires 0 <= k < |s| => LowerChar(s[k]))
  }

  /** Lower-casing twice is lower-casing once. */
  lemma LowerIdempotent(s: string)
    ensures Lower(Lower(s)) == Lower(s)
  {
  }
}
