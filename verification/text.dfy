/**
 Plain-text helpers shared by the method locator and the keyword verifier:
 substring search as Java's `String.contains` performs it, and the joining of
 lines that `StringBuilder.append(line).append("\n")` performs.
 */
module Text {

  /** `t` occurs in `s` starting at position `i`. */
  predicate OccursAt(s: string, t: string, i: int)
  {
    0 <= i && i + |t| <= |s| && s[i..i + |t|] == t
  }

  /** Java's `s.contains(t)`. */
  predicate Contains(s: string, t: string)
  {
    exists i :: 0 <= i <= |s| && OccursAt(s, t, i)
  }

  /** A string that lacks one of the characters of `t` cannot contain `t`. */
  lemma MissingCharNotContained(s: string, t: string, c: char)
    requires c in t && c !in s
    ensures !Contains(s, t)
  {
  }

  /** A string shorter than `t` cannot contain `t`. */
  lemma ShorterNotContained(s: string, t: string)
    requires |s| < |t|
    ensures !Contains(s, t)
  {
  }

  /** Every line followed by a newline, concatenated in order. */
  function Unlines(lines: seq<string>): string
  {
    if |lines| == 0 then "" else Unlines(lines[..|lines| - 1]) + lines[|lines| - 1] + "\n"
  }

  /** Joining a run of lines one line longer appends exactly that line and a newline. */
  lemma UnlinesExtend(lines: seq<string>, s: int, k: int)
    requires 0 <= s <= k < |lines|
    ensures Unlines(lines[s..k + 1]) == Unlines(lines[s..k]) + lines[k] + "\n"
  {
    assert lines[s..k + 1][..k - s] == lines[s..k];
  }
}
