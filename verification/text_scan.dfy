/**
 * Character scans shared by the OpenFOAM dictionary helpers: runs of
 * whitespace, the first occurrence of a character, and the split of a text
 * into lines and back.
 */
module TextScan {

  /** Python's `\s` on the ASCII range: the six usual blanks and the four separators 0x1C-0x1F. */
  predicate IsSpace(c: char)
  {
    c == ' ' || c == '\t' || c == '\n' || c == '\r' || c == '\U{000B}' || c == '\U{000C}' ||
    ('\U{001C}' <= c <= '\U{001F}')
  }

  /** `w` is spelled out in `s` from position p on. */
  predicate OccursAt(s: string, p: nat, w: string)
  {
    p + |w| <= |s| && forall i :: 0 <= i < |w| ==> s[p + i] == w[i]
  }

  /** End of the run of whitespace that starts at position i (a greedy `\s*` from i). */
  function SpaceEnd(s: string, i: nat): (k: nat)
    requires i <= |s|
    ensures i <= k <= |s|
    ensures k < |s| ==> !IsSpace(s[k])
    decreases |s| - i
  {
    if i == |s| || !IsSpace(s[i]) then i else SpaceEnd(s, i + 1)
  }

  /** Position of the first `c` at or after position i, or |s| when there is none. */
  function Find(s: string, i: nat, c: char): (k: nat)
    requires i <= |s|
    ensures i <= k <= |s|
    ensures k < |s| ==> s[k] == c
    decreases |s| - i
  {
    if i == |s| || s[i] == c then i else Find(s, i + 1, c)
  }

  /** Every character the whitespace scan passes over is whitespace. */
  lemma {:induction false} SpaceEndRun(s: string, i: nat)
    requires i <= |s|
    ensures forall m :: i <= m < SpaceEnd(s, i) ==> IsSpace(s[m])
    decreases |s| - i
  {
    if i < |s| && IsSpace(s[i]) {
      SpaceEndRun(s, i + 1);
    }
  }

  /** A run of whitespace from i to k followed by a non-space (or the end) is the whole run. */
  lemma {:induction false} SpaceEndAt(s: string, i: nat, k: nat)
    requires i <= k <= |s| && (forall m :: i <= m < k ==> IsSpace(s[m])) && (k < |s| ==> !IsSpace(s[k]))
    ensures SpaceEnd(s, i) == k
    decreases k - i
  {
    if i < k {
      SpaceEndAt(s, i + 1, k);
    }
  }

  /** The search passes over no `c`. */
  lemma {:induction false} FindRun(s: string, i: nat, c: char)
    requires i <= |s|
    ensures forall m :: i <= m < Find(s, i, c) ==> s[m] != c
    decreases |s| - i
  {
    if i < |s| && s[i] != c {
      FindRun(s, i + 1, c);
    }
  }

  /** A search that stops at k, with no `c` before it, stops at k. */
  lemma {:induction false} FindAt(s: string, i: nat, c: char, k: nat)
    requires i <= k <= |s| && (forall m :: i <= m < k ==> s[m] != c) && (k < |s| ==> s[k] == c)
    ensures Find(s, i, c) == k
    decreases k - i
  {
    if i < k {
      FindAt(s, i + 1, c, k);
    }
  }

  /** `s.split("\n")`: the lines of `s` without their terminators; never empty. */
  function Lines(s: string): (r: seq<string>)
    ensures |r| >= 1
    ensures forall i :: 0 <= i < |r| ==> '\n' !in r[i]
    decreases |s|
  {
    var n := Find(s, 0, '\n');
    FindRun(s, 0, '\n');
    assert forall m :: 0 <= m < n ==> s[..n][m] == s[m];
    if n == |s| then [s] else [s[..n]] + Lines(s[n + 1..])
  }

  /** `"\n".join(ls)`. */
  function Unlines(ls: seq<string>): string
    requires |ls| >= 1
  {
    if |ls| == 1 then ls[0] else ls[0] + "\n" + Unlines(ls[1..])
  }

  /** Joining the lines of a text gives the text back. */
  lemma {:induction false} UnlinesLines(s: string)
    ensures Unlines(Lines(s)) == s
    decreases |s|
  {
    var n := Find(s, 0, '\n');
    if n < |s| {
      UnlinesLines(s[n + 1..]);
      assert s == s[..n] + "\n" + s[n + 1..];
    }
  }

  /** In `u + "\n" + rest` with `u` free of newlines, the first line is `u` and the rest follows the newline. */
  lemma FirstLineOfJoin(u: string, rest: string)
    requires '\n' !in u
    ensures Find(u + "\n" + rest, 0, '\n') == |u|
    ensures (u + "\n" + rest)[..|u|] == u && (u + "\n" + rest)[|u| + 1..] == rest
  {
    var s := u + "\n" + rest;
    assert forall m :: 0 <= m < |u| ==> s[m] == u[m];
    FindAt(s, 0, '\n', |u|);
  }

  /** Splitting a join of newline-free lines gives the lines back. */
  lemma {:induction false} LinesUnlines(ls: seq<string>)
    requires |ls| >= 1 && forall i :: 0 <= i < |ls| ==> '\n' !in ls[i]
    ensures Lines(Unlines(ls)) == ls
  {
    if |ls| > 1 {
      var rest := Unlines(ls[1..]);
      FirstLineOfJoin(ls[0], rest);
      LinesUnlines(ls[1..]);
      assert Lines(Unlines(ls)) == [ls[0]] + ls[1..];
    }
  }
}
