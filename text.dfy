/**
 * String helpers shared by several handlers: ASCII case mapping, as
 * `toLowerCase` / `toUpperCase` behave on ASCII text (characters outside
 * A-Z / a-z are left as they are), and the text after the last '.'.
 */
module Text {
  predicate IsUpper(c: char) {
    'A' <= c <= 'Z'
  }

  predicate IsLower(c: char) {
    'a' <= c <= 'z'
  }

  function Lower(c: char): (d: char)
    ensures IsUpper(c) ==> IsLower(d) && d as int - 'a' as int == c as int - 'A' as int
    ensures !IsUpper(c) ==> d == c
  {
    if IsUpper(c) then (c as int - 'A' as int + 'a' as int) as char else c
  }

  function Upper(c: char): (d: char)
    ensures IsLower(c) ==> IsUpper(d) && d as int - 'A' as int == c as int - 'a' as int
    ensures !IsLower(c) ==> d == c
  {
    if IsLower(c) then (c as int - 'a' as int + 'A' as int) as char else c
  }

  function LowerAll(s: string): (r: string)
    ensures |r| == |s| && forall i :: 0 <= i < |s| ==> r[i] == Lower(s[i])
  {
    seq(|s|, i requires 0 <= i < |s| => Lower(s[i]))
  }

  /** Text without capitals is its own lower case. */
  lemma LowerAllFixes(s: string)
    requires forall i :: 0 <= i < |s| ==> !IsUpper(s[i])
    ensures LowerAll(s) == s
  {
  }

  /** The text after the last '.', or all of it when there is none. */
  function AfterLastDot(s: string): (ext: string)
    ensures '.' !in ext
    ensures |ext| <= |s| && ext == s[|s| - |ext|..]
    ensures '.' !in s ==> ext == s
    ensures '.' in s ==> s[|s| - |ext| - 1] == '.'
  {
    if s == [] then []
    else if s[|s| - 1] == '.' then []
    else
      var front := s[..|s| - 1];
      assert s == front + [s[|s| - 1]];
      AfterLastDot(front) + [s[|s| - 1]]
  }

  /** Only the last dot counts: whatever the stem holds, dots included, the extension is what follows the last dot. */
  lemma {:induction false} AfterLastDotOf(stem: string, ext: string)
    requires '.' !in ext
    ensures AfterLastDot(stem + "." + ext) == ext
    decreases |ext|
  {
    var s := stem + "." + ext;
    if ext != [] {
      var front := ext[..|ext| - 1];
      assert s[..|s| - 1] == stem + "." + front;
      AfterLastDotOf(stem, front);
      assert ext == front + [ext[|ext| - 1]];
    }
  }
}
