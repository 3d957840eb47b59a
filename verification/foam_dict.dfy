/**
 * `update_dictionary_text`: for each (key, value) pair in turn, every line of
 * an OpenFOAM dictionary of the form `key [dims] old;` gets `value` in place
 * of `old`, keeping what precedes the value and the `;` with everything after
 * it. The regular expression is modelled line by line.
 */
module FoamDict {
  import opened Wrappers
  import opened TextScan

  /** A character of a value token: `[^\s;]`. */
  predicate IsValueChar(c: char)
  {
    !IsSpace(c) && c != ';'
  }

  /** A value token `[^\s;]+` at [v, n) of the line. */
  predicate ValueRun(line: string, v: nat, n: nat)
  {
    v < n <= |line| && forall m :: v <= m < n ==> IsValueChar(line[m])
  }

  /** End of the run of value characters that starts at position i (a greedy `[^\s;]*` from i). */
  function ValueEnd(s: string, i: nat): (k: nat)
    requires i <= |s|
    ensures i <= k <= |s|
    ensures k < |s| ==> !IsValueChar(s[k])
    decreases |s| - i
  {
    if i == |s| || !IsValueChar(s[i]) then i else ValueEnd(s, i + 1)
  }

  /** Every character the value scan passes over is a value character. */
  lemma {:induction false} ValueEndRun(s: string, i: nat)
    requires i <= |s|
    ensures forall m :: i <= m < ValueEnd(s, i) ==> IsValueChar(s[m])
    decreases |s| - i
  {
    if i < |s| && IsValueChar(s[i]) {
      ValueEndRun(s, i + 1);
    }
  }

  /** A run of value characters from i to k followed by another character (or the end) is the whole run. */
  lemma {:induction false} ValueEndAt(s: string, i: nat, k: nat)
    requires i <= k <= |s| && (forall m :: i <= m < k ==> IsValueChar(s[m])) && (k < |s| ==> !IsValueChar(s[k]))
    ensures ValueEnd(s, i) == k
    decreases k - i
  {
    if i < k {
      ValueEndAt(s, i + 1, k);
    }
  }

  /**
   * The groups of a match, by position: the leading group `line[..valueStart]`,
   * the value `line[valueStart..valueEnd]`, and `\s*;` with the rest of the
   * line, `line[valueEnd..]`.
   */
  datatype LineMatch = LineMatch(valueStart: nat, valueEnd: nat)

  /** `\s*;` starts at position n. */
  predicate StatementEnd(line: string, n: nat)
  {
    n <= |line| && SpaceEnd(line, n) < |line| && line[SpaceEnd(line, n)] == ';'
  }

  /**
   * `\s*\[[^\]]*\]\s+` spans line[a..v]: blanks up to a `[`, the bracket
   * group closed at the first `]` after it, then at least one blank.
   */
  predicate DimsGap(line: string, a: nat, v: nat)
    requires a <= v <= |line|
  {
    var open := SpaceEnd(line, a);
    && open < |line| && line[open] == '[' && SpacesBetween(line, a, open)
    && var close := Find(line, open + 1, ']');
       close + 1 < v && SpacesBetween(line, close + 1, v)
  }

  /** `\s*(?:\[[^\]]*\])?\s+` spans line[a..v]: only blanks, at least one, or a bracket group among blanks. */
  predicate KeyGap(line: string, a: nat, v: nat)
    requires a <= v <= |line|
  {
    (a < v && SpacesBetween(line, a, v)) || DimsGap(line, a, v)
  }

  /**
   * `^\s*key\s*(?:\[[^\]]*\])?\s+` spans line[..v]: the key starts at some
   * position within the leading blanks and the gap after it has the shape of
   * `KeyGap`.
   */
  predicate KeyHead(line: string, key: string, v: nat)
  {
    && v <= |line|
    && exists lead: nat :: lead <= SpaceEnd(line, 0) && lead + |key| <= v && OccursAt(line, lead, key) && KeyGap(line, lead + |key|, v)
  }

  /** `([^\s;]+)(\s*;)` at position v of the line. */
  function ValueAt(line: string, v: nat): (r: Option<LineMatch>)
    requires v <= |line|
    ensures r.Some? ==> r.value.valueStart == v
    ensures r.Some? ==> ValueRun(line, v, r.value.valueEnd) && StatementEnd(line, r.value.valueEnd)
  {
    var n := ValueEnd(line, v);
    var w := SpaceEnd(line, n);
    ValueEndRun(line, v);
    if n > v && w < |line| && line[w] == ';' then Some(LineMatch(v, n)) else None
  }

  /** The dimensions branch: `\[[^\]]*\]\s+` then the value, with `[` at position j. */
  function DimsPath(line: string, j: nat): (r: Option<LineMatch>)
    requires j <= |line|
    ensures r.Some? ==> ValueRun(line, r.value.valueStart, r.value.valueEnd) && StatementEnd(line, r.value.valueEnd)
    ensures r.Some? ==>
              && j < |line| && line[j] == '['
              && Find(line, j + 1, ']') + 1 < r.value.valueStart
              && SpacesBetween(line, Find(line, j + 1, ']') + 1, r.value.valueStart)
  {
    if j < |line| && line[j] == '[' then
      var close := Find(line, j + 1, ']');
      if close < |line| then
        var k := SpaceEnd(line, close + 1);
        SpaceEndRun(line, close + 1);
        if k > close + 1 then ValueAt(line, k) else None
      else None
    else None
  }

  /**
   * The rest of the pattern after the key, which ends at position a: the
   * dimensions are tried first and, when the rest does not match after them,
   * the pattern is tried without them (`\s+` then the value).
   */
  function MatchAfterKey(line: string, a: nat): (r: Option<LineMatch>)
    requires a <= |line|
    ensures r.Some? ==> ValueRun(line, r.value.valueStart, r.value.valueEnd) && StatementEnd(line, r.value.valueEnd)
    ensures r.Some? ==> a < r.value.valueStart <= |line| && KeyGap(line, a, r.value.valueStart)
  {
    var j := SpaceEnd(line, a);
    var withDims := DimsPath(line, j);
    SpaceEndRun(line, a);
    if withDims.Some? then withDims
    else if j > a then ValueAt(line, j)
    else None
  }

  /**
   * The pattern with `^\s*` holding the first `lead` blanks: when the key or
   * the rest does not match there, `\s*` gives back one blank and the match
   * is tried again. Only an empty key, or one that starts with a blank, can
   * need a shorter lead.
   */
  function MatchFrom(line: string, key: string, lead: nat): (r: Option<LineMatch>)
    requires lead <= SpaceEnd(line, 0)
    ensures r.Some? ==> ValueRun(line, r.value.valueStart, r.value.valueEnd) && StatementEnd(line, r.value.valueEnd)
    ensures r.Some? ==> KeyHead(line, key, r.value.valueStart)
    decreases lead
  {
    if OccursAt(line, lead, key) && MatchAfterKey(line, lead + |key|).Some? then MatchAfterKey(line, lead + |key|)
    else if lead == 0 then None
    else MatchFrom(line, key, lead - 1)
  }

  /** The match of `^\s*key\s*(?:\[[^\]]*\])?\s+([^\s;]+)(\s*;)` on one line. */
  function MatchLine(line: string, key: string): (r: Option<LineMatch>)
    ensures r.Some? ==> ValueRun(line, r.value.valueStart, r.value.valueEnd) && StatementEnd(line, r.value.valueEnd)
    ensures r.Some? ==> KeyHead(line, key, r.value.valueStart)
  {
    MatchFrom(line, key, SpaceEnd(line, 0))
  }

  /** The line after substitution: `\g<1>` + value + `\g<3>` where the pattern matches. */
  function SubstituteLine(line: string, key: string, value: string): string
  {
    match MatchLine(line, key)
    case Some(m) => line[..m.valueStart] + value + line[m.valueEnd..]
    case None => line
  }

  function SubstituteLines(ls: seq<string>, key: string, value: string): (r: seq<string>)
    ensures |r| == |ls|
  {
    if ls == [] then [] else [SubstituteLine(ls[0], key, value)] + SubstituteLines(ls[1..], key, value)
  }

  /** Each line is substituted on its own. */
  lemma {:induction false} SubstituteLinesAt(ls: seq<string>, key: string, value: string, i: nat)
    requires i < |ls|
    ensures SubstituteLines(ls, key, value)[i] == SubstituteLine(ls[i], key, value)
    decreases i
  {
    if i > 0 {
      SubstituteLinesAt(ls[1..], key, value, i - 1);
    }
  }

  /** The number of lines the pattern matches. */
  function CountMatches(ls: seq<string>, key: string): (n: nat)
    ensures n <= |ls|
  {
    if ls == [] then 0
    else (if MatchLine(ls[0], key).Some? then 1 else 0) + CountMatches(ls[1..], key)
  }

  /** The count is zero exactly when no line matches. */
  lemma {:induction false} CountMatchesZero(ls: seq<string>, key: string)
    ensures CountMatches(ls, key) == 0 <==> forall i :: 0 <= i < |ls| ==> MatchLine(ls[i], key).None?
  {
    if ls != [] {
      CountMatchesZero(ls[1..], key);
      assert forall i :: 1 <= i < |ls| ==> ls[1..][i - 1] == ls[i];
    }
  }

  /** With no matching line, the substitution leaves every line as it was. */
  lemma {:induction false} SubstituteLinesNoMatch(ls: seq<string>, key: string, value: string)
    requires CountMatches(ls, key) == 0
    ensures SubstituteLines(ls, key, value) == ls
  {
    if ls != [] {
      SubstituteLinesNoMatch(ls[1..], key, value);
      assert ls == [ls[0]] + ls[1..];
    }
  }

  /** `re.subn(pattern, replacement, text, flags=re.MULTILINE)`: the new text and the count. */
  function Subn(text: string, key: string, value: string): (string, nat)
  {
    (Unlines(SubstituteLines(Lines(text), key, value)), CountMatches(Lines(text), key))
  }

  /** One iteration of the loop over the updates. */
  function Step(text: string, key: string, value: string): string
  {
    var (newText, count) := Subn(text, key, value);
    if count > 0 then newText else text
  }

  /** The updates applied in order, as the loop applies them. */
  function ApplyUpdates(text: string, updates: seq<(string, string)>): string
  {
    if updates == [] then text
    else
      var last := updates[|updates| - 1];
      Step(ApplyUpdates(text, updates[..|updates| - 1]), last.0, last.1)
  }

  /** `update_dictionary_text(text, updates)`, the updates in the dictionary's order. */
  method UpdateDictionaryText(text: string, updates: seq<(string, string)>) returns (r: string)
    ensures r == ApplyUpdates(text, updates)
    ensures (forall u :: 0 <= u < |updates| ==> '\n' !in updates[u].1) ==>
      |Lines(r)| == |Lines(text)|
  {
    r := text;
    for u := 0 to |updates|
      invariant r == ApplyUpdates(text, updates[..u])
    {
      var (key, newVal) := updates[u];
      var (newText, count) := Subn(r, key, newVal);
      if count > 0 {
        r := newText;
      }
      assert updates[..u + 1][..u] == updates[..u];
    }
    assert updates[..|updates|] == updates;
    if forall u :: 0 <= u < |updates| ==> '\n' !in updates[u].1 {
      ApplyUpdatesFrame(text, updates, 0);
    }
  }

  /** When the pattern matches no line, `re.subn` gives the text back unchanged. */
  lemma SubnNoMatch(text: string, key: string, value: string)
    requires Subn(text, key, value).1 == 0
    ensures Subn(text, key, value).0 == text
  {
    SubstituteLinesNoMatch(Lines(text), key, value);
    UnlinesLines(text);
  }

  /** Substitution into a line without newlines gives a line without newlines. */
  lemma SubstituteLineNoNewline(line: string, key: string, value: string)
    requires '\n' !in line && '\n' !in value
    ensures '\n' !in SubstituteLine(line, key, value)
  {
    match MatchLine(line, key)
    case None =>
    case Some(m) =>
      assert forall c :: c in line[..m.valueStart] || c in line[m.valueEnd..] ==> c in line;
  }

  /** The lines after one step are the substituted lines, whichever branch the step takes. */
  lemma StepLinewise(text: string, key: string, value: string)
    requires '\n' !in value
    ensures Lines(Step(text, key, value)) == SubstituteLines(Lines(text), key, value)
  {
    var ls := Lines(text);
    var sub := SubstituteLines(ls, key, value);
    if CountMatches(ls, key) > 0 {
      forall i | 0 <= i < |sub| ensures '\n' !in sub[i] {
        SubstituteLinesAt(ls, key, value, i);
        SubstituteLineNoNewline(ls[i], key, value);
      }
      LinesUnlines(sub);
    } else {
      SubstituteLinesNoMatch(ls, key, value);
    }
  }

  /**
   * A line that matches none of the keys is left exactly as it was, and the
   * number of lines does not change.
   */
  lemma {:induction false} ApplyUpdatesFrame(text: string, updates: seq<(string, string)>, i: nat)
    requires forall u :: 0 <= u < |updates| ==> '\n' !in updates[u].1
    ensures |Lines(ApplyUpdates(text, updates))| == |Lines(text)|
    ensures i < |Lines(text)| && (forall u :: 0 <= u < |updates| ==> MatchLine(Lines(text)[i], updates[u].0).None?) ==>
      Lines(ApplyUpdates(text, updates))[i] == Lines(text)[i]
  {
    if updates != [] {
      var prefix := updates[..|updates| - 1];
      var last := updates[|updates| - 1];
      ApplyUpdatesFrame(text, prefix, i);
      StepLinewise(ApplyUpdates(text, prefix), last.0, last.1);
      if i < |Lines(text)| {
        SubstituteLinesAt(Lines(ApplyUpdates(text, prefix)), last.0, last.1, i);
      }
    }
  }

  /** If no line matches any key, the text comes back unchanged. */
  lemma {:induction false} ApplyUpdatesNoMatch(text: string, updates: seq<(string, string)>)
    requires forall i, u :: 0 <= i < |Lines(text)| && 0 <= u < |updates| ==> MatchLine(Lines(text)[i], updates[u].0).None?
    ensures ApplyUpdates(text, updates) == text
  {
    if updates != [] {
      var prefix := updates[..|updates| - 1];
      var last := updates[|updates| - 1];
      ApplyUpdatesNoMatch(text, prefix);
      CountMatchesZero(Lines(text), last.0);
    }
  }

  /** A single update is a single step of the loop. */
  lemma ApplyOne(text: string, key: string, value: string)
    ensures ApplyUpdates(text, [(key, value)]) == Step(text, key, value)
  {
    var us := [(key, value)];
    assert us[..0] == [];
    assert ApplyUpdates(text, us[..0]) == text;
    assert us[|us| - 1] == (key, value);
  }

  /** A matched line keeps its leading part and its `;` with the rest; only the value is replaced. */
  lemma UpdateReplacesValue(text: string, key: string, value: string, i: nat)
    requires '\n' !in value && i < |Lines(text)| && MatchLine(Lines(text)[i], key).Some?
    ensures |Lines(ApplyUpdates(text, [(key, value)]))| == |Lines(text)|
    ensures var line, m := Lines(text)[i], MatchLine(Lines(text)[i], key).value;
      Lines(ApplyUpdates(text, [(key, value)]))[i] == line[..m.valueStart] + value + line[m.valueEnd..]
  {
    var r := ApplyUpdates(text, [(key, value)]);
    ApplyOne(text, key, value);
    StepLinewise(text, key, value);
    var ls := Lines(text);
    SubstituteLinesAt(ls, key, value, i);
  }

  /**
   * With an empty key, `^\s*` gives back a blank so that `\s+` can match it:
   * "  5;" is matched with the value 5.
   */
  lemma EmptyKeyBacktracks()
    ensures MatchLine("  5;", "") == Some(LineMatch(2, 3))
  {
    var line := "  5;";
    SpaceEndAt(line, 0, 2);
    ValueAtRuns(line, 2, 3, 3);
    assert MatchAfterKey(line, 2).None?;
    assert MatchAfterKey(line, 1) == Some(LineMatch(2, 3));
  }

  /** Other text between the key and the value is not a match: "key x 5;" does not match "key". */
  lemma OtherTextRejected()
    ensures !KeyHead("key x 5;", "key", 6)
    ensures MatchLine("key x 5;", "key").None?
  {
    var line := "key x 5;";
    SpaceEndAt(line, 0, 0);
    SpaceEndAt(line, 3, 4);
    assert !SpacesBetween(line, 3, 6) by { assert !IsSpace(line[4]); }
  }

  /** The characters of line[lo..hi] are all whitespace. */
  predicate SpacesBetween(line: string, lo: nat, hi: nat)
    requires lo <= hi <= |line|
  {
    forall i :: lo <= i < hi ==> IsSpace(line[i])
  }

  /** Blanks up to a key that starts with a non-blank: the scan for `^\s*` stops at the key. */
  lemma LeadBeforeKey(line: string, key: string, lead: nat)
    requires lead <= |line| && SpacesBetween(line, 0, lead)
    requires OccursAt(line, lead, key) && |key| > 0 && !IsSpace(key[0])
    ensures SpaceEnd(line, 0) == lead
  {
    assert line[lead + 0] == key[0];
    SpaceEndAt(line, 0, lead);
  }

  /** Once `^\s*key` is found and the rest of the line matches after it, that is the match. */
  lemma MatchLineAfter(line: string, key: string, lead: nat)
    requires SpaceEnd(line, 0) == lead && OccursAt(line, lead, key)
    requires MatchAfterKey(line, lead + |key|).Some?
    ensures MatchLine(line, key) == MatchAfterKey(line, lead + |key|)
  {
  }

  /** A value token from j to e, then blanks and `;` at s: the value is matched at j. */
  lemma ValueAtRuns(line: string, j: nat, e: nat, s: nat)
    requires e <= s < |line| && ValueRun(line, j, e)
    requires SpacesBetween(line, e, s) && line[s] == ';'
    ensures ValueAt(line, j) == Some(LineMatch(j, e))
  {
    ValueEndAt(line, j, e);
    SpaceEndAt(line, e, s);
  }

  /** Without `[` after the blanks that follow the key, the value is tried right after those blanks. */
  lemma AfterKeyPlain(line: string, a: nat, j: nat)
    requires a < j < |line| && SpaceEnd(line, a) == j && line[j] != '['
    ensures MatchAfterKey(line, a) == ValueAt(line, j)
  {
  }

  /** The dimensions branch evaluated from the positions of `[`, `]` and the value. */
  lemma DimsPathAt(line: string, open: nat, close: nat, j: nat)
    requires open < close < j - 1 && j <= |line| && line[open] == '['
    requires Find(line, open + 1, ']') == close && SpaceEnd(line, close + 1) == j
    ensures DimsPath(line, open) == ValueAt(line, j)
  {
  }

  /**
   * A line `key value;`: blanks up to `lead`, the key, at least one blank up
   * to `j`, a value token from `j` to `e` not starting with `[`, blanks, and
   * `;` at `s`. It is matched, with the value at [j, e).
   */
  lemma MatchesPlainLine(line: string, key: string, lead: nat, j: nat, e: nat, s: nat)
    requires lead + |key| < j < e <= s < |line|
    requires SpacesBetween(line, 0, lead) && OccursAt(line, lead, key) && |key| > 0 && !IsSpace(key[0])
    requires SpacesBetween(line, lead + |key|, j)
    requires ValueRun(line, j, e) && line[j] != '['
    requires SpacesBetween(line, e, s) && line[s] == ';'
    ensures MatchLine(line, key) == Some(LineMatch(j, e))
  {
    LeadBeforeKey(line, key, lead);
    SpaceEndAt(line, lead + |key|, j);
    ValueAtRuns(line, j, e, s);
    AfterKeyPlain(line, lead + |key|, j);
    MatchLineAfter(line, key, lead);
  }

  /**
   * A line `key [dims] value;`: as above, with blanks and a bracket pair
   * [`open`, `close`] between the key and the blanks before the value. It is
   * matched, with the value at [j, e).
   */
  lemma MatchesDimensionedLine(line: string, key: string, lead: nat, open: nat, close: nat,
                               j: nat, e: nat, s: nat)
    requires lead + |key| <= open < close < j - 1 && j < e <= s < |line|
    requires SpacesBetween(line, 0, lead) && OccursAt(line, lead, key) && |key| > 0 && !IsSpace(key[0])
    requires SpacesBetween(line, lead + |key|, open)
    requires line[open] == '[' && line[close] == ']' && forall m :: open < m < close ==> line[m] != ']'
    requires SpacesBetween(line, close + 1, j)
    requires ValueRun(line, j, e)
    requires SpacesBetween(line, e, s) && line[s] == ';'
    ensures MatchLine(line, key) == Some(LineMatch(j, e))
  {
    LeadBeforeKey(line, key, lead);
    SpaceEndAt(line, lead + |key|, open);
    FindAt(line, open + 1, ']', close);
    SpaceEndAt(line, close + 1, j);
    ValueAtRuns(line, j, e, s);
    DimsPathAt(line, open, close, j);
    MatchLineAfter(line, key, lead);
  }
}
