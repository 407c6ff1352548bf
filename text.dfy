/** Character and string operations of Python's `str` that the pipeline relies
    on, restricted to ASCII. */
module Text {

  predicate IsUpper(c: char) {
    'A' <= c <= 'Z'
  }

  /** ASCII lower-casing of one character; every other character is kept. */
  function LowerChar(c: char): (l: char)
    ensures !IsUpper(l)
    ensures !IsUpper(c) ==> l == c
    ensures IsUpper(c) ==> 'a' <= l <= 'z' && l as int == c as int + 32
  {
    if IsUpper(c) then (c as int - 'A' as int + 'a' as int) as char else c
  }

  /** `s.lower()`, character by character. */
  function Lower(s: string): (r: string)
    ensures |r| == |s|
    ensures forall i :: 0 <= i < |s| ==> r[i] == LowerChar(s[i])
  {
    if s == [] then [] else [LowerChar(s[0])] + Lower(s[1..])
  }

  /** `s.replace(c, rep)` for a one-character pattern `c`: every occurrence of
      `c` is replaced by `rep`, all other characters are kept in order. */
  function ReplaceChar(s: string, c: char, rep: string): (r: string)
    ensures |rep| <= 1 ==> |r| <= |s|
    ensures |rep| == 1 ==> |r| == |s|
  {
    if s == [] then []
    else (if s[0] == c then rep else [s[0]]) + ReplaceChar(s[1..], c, rep)
  }

  /** A character is in the result iff it was in `s` and is not `c`, or it
      comes from `rep` and `c` occurred. */
  lemma {:induction false} ReplaceCharMembers(s: string, c: char, rep: string, x: char)
    ensures x in ReplaceChar(s, c, rep) <==> (x in s && x != c) || (x in rep && c in s)
  {
    if s != [] {
      ReplaceCharMembers(s[1..], c, rep, x);
      assert s == [s[0]] + s[1..];
    }
  }

  /** Replacing a character distributes over concatenation. */
  lemma {:induction false} ReplaceCharAppend(a: string, b: string, c: char, rep: string)
    ensures ReplaceChar(a + b, c, rep) == ReplaceChar(a, c, rep) + ReplaceChar(b, c, rep)
  {
    if a == [] {
      assert a + b == b;
    } else {
      assert (a + b)[0] == a[0];
      assert (a + b)[1..] == a[1..] + b;
      ReplaceCharAppend(a[1..], b, c, rep);
    }
  }

  /** `pat` occurs in `s` starting at position `i`. */
  predicate OccursAt(pat: string, s: string, i: int) {
    0 <= i <= |s| - |pat| && s[i..i + |pat|] == pat
  }

  /** Python's `pat in s` for strings: `pat` occurs in `s` at some position. */
  predicate IsSubstring(pat: string, s: string)
    ensures IsSubstring(pat, s) ==> |pat| <= |s|
    ensures pat == [] ==> IsSubstring(pat, s)
  {
    assert pat == [] ==> OccursAt(pat, s, 0);
    exists i | 0 <= i <= |s| - |pat| :: OccursAt(pat, s, i)
  }

  /** Whatever contains `p + q` contains `p`. */
  lemma PrefixIsSubstring(p: string, q: string, s: string)
    requires IsSubstring(p + q, s)
    ensures IsSubstring(p, s)
  {
    var i :| 0 <= i <= |s| - |p + q| && OccursAt(p + q, s, i);
    assert s[i..i + |p + q|] == p + q;
    assert s[i..i + |p|] == s[i..i + |p + q|][..|p|];
    assert OccursAt(p, s, i);
  }
}
