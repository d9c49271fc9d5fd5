/**
 * The two java.lang.String operations the command core relies on:
 * `equalsIgnoreCase`, with case folding restricted to ASCII letters, and
 * the literal (non-regex) `replace(CharSequence, CharSequence)`.
 */
module JavaText {

  /** Folds an upper-case ASCII letter to lower case; other characters are kept. */
  function FoldChar(c: char): char {
    if 'A' <= c <= 'Z' then (c as int + 32) as char else c
  }

  /** `a.equalsIgnoreCase(b)`: same length, and equal character by character after folding. */
  predicate EqualsIgnoreCase(a: string, b: string) {
    |a| == |b| && forall i :: 0 <= i < |a| ==> FoldChar(a[i]) == FoldChar(b[i])
  }

  /** `target` occurs in `s` starting at index `i`. */
  predicate OccursAt(s: string, target: string, i: int) {
    0 <= i && i + |target| <= |s| && s[i..i + |target|] == target
  }

  /** `s.contains(target)`. */
  predicate Occurs(s: string, target: string) {
    exists i :: 0 <= i <= |s| && OccursAt(s, target, i)
  }

  /**
   * `s.replace(target, replacement)`. A non-empty target is replaced
   * left to right without overlaps; an empty target matches before every
   * character and once more at the end.
   */
  function Replace(s: string, target: string, replacement: string): string
    decreases |s|
  {
    if target == [] then
      if s == [] then replacement
      else replacement + [s[0]] + Replace(s[1..], target, replacement)
    else if |s| < |target| then s
    else if s[..|target|] == target then replacement + Replace(s[|target|..], target, replacement)
    else [s[0]] + Replace(s[1..], target, replacement)
  }

  /** A non-empty target that does not occur leaves the string unchanged. */
  lemma {:induction false} ReplaceAbsent(s: string, target: string, replacement: string)
    requires target != [] && !Occurs(s, target)
    ensures Replace(s, target, replacement) == s
    decreases |s|
  {
    if |s| >= |target| {
      assert !OccursAt(s, target, 0);
      assert s[0..|target|] == s[..|target|];
      OccursInTail(s, target);
      ReplaceAbsent(s[1..], target, replacement);
    }
  }

  /** An occurrence in the tail of `s` is an occurrence in `s`. */
  lemma OccursInTail(s: string, target: string)
    requires s != []
    ensures Occurs(s[1..], target) ==> Occurs(s, target)
  {
    if Occurs(s[1..], target) {
      var i :| 0 <= i <= |s| - 1 && OccursAt(s[1..], target, i);
      assert s[1..][i..i + |target|] == s[i + 1..i + 1 + |target|];
      assert OccursAt(s, target, i + 1);
    }
  }

  /** Replacing a non-empty target by itself is the identity. */
  lemma {:induction false} ReplaceWithItself(s: string, target: string)
    requires target != []
    ensures Replace(s, target, target) == s
    decreases |s|
  {
    if |s| >= |target| {
      if s[..|target|] == target {
        ReplaceWithItself(s[|target|..], target);
        assert s[..|target|] + s[|target|..] == s;
      } else {
        ReplaceWithItself(s[1..], target);
        assert [s[0]] + s[1..] == s;
      }
    }
  }

  /** A replacement as long as its non-empty target keeps the length. */
  lemma {:induction false} ReplaceKeepsLength(s: string, target: string, replacement: string)
    requires target != [] && |replacement| == |target|
    ensures |Replace(s, target, replacement)| == |s|
    decreases |s|
  {
    if |s| >= |target| {
      if s[..|target|] == target {
        ReplaceKeepsLength(s[|target|..], target, replacement);
      } else {
        ReplaceKeepsLength(s[1..], target, replacement);
      }
    }
  }

  /** An empty target inserts the replacement at all |s| + 1 positions. */
  lemma {:induction false} ReplaceEmptyTargetLength(s: string, replacement: string)
    ensures |Replace(s, [], replacement)| == |s| + (|s| + 1) * |replacement|
    decreases |s|
  {
    if s != [] {
      ReplaceEmptyTargetLength(s[1..], replacement);
      calc {
        |Replace(s, [], replacement)|;
        |replacement| + 1 + |Replace(s[1..], [], replacement)|;
        |replacement| + 1 + (|s| - 1) + |s| * |replacement|;
        { assert (|s| + 1) * |replacement| == |s| * |replacement| + |replacement|; }
        |s| + (|s| + 1) * |replacement|;
      }
    }
  }
}
