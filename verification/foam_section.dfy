/**
 * `update_section_in_transport`: the first `name { ... }` section of a
 * dictionary has its body rewritten by the key/value updates, and the text
 * is then rebuilt with `str.replace` of the whole matched section.
 */
module FoamSection {
  import opened Wrappers
  import opened TextScan
  import opened FoamDict

  /**
   * A match of `(name\s*\{\s*)([^}]*)(\s*\})`: the header is
   * text[start..blockStart], the block text[blockStart..close], and the
   * footer the single `}` at close.
   */
  datatype SectionMatch = SectionMatch(start: nat, blockStart: nat, close: nat)

  /** The whole matched text: header, block and footer. */
  function Whole(text: string, m: SectionMatch): string
    requires m.start <= m.close < |text|
  {
    text[m.start..m.close + 1]
  }

  /** The section pattern tried at position p. */
  function SectionAt(text: string, p: nat, name: string): (r: Option<SectionMatch>)
    requires p <= |text|
    ensures r.Some? ==> r.value.start == p
    ensures r.Some? ==> p + |name| < r.value.blockStart <= r.value.close < |text|
    ensures r.Some? ==> text[r.value.close] == '}'
  {
    if OccursAt(text, p, name) then
      var b := SpaceEnd(text, p + |name|);
      if b < |text| && text[b] == '{' then
        var h := SpaceEnd(text, b + 1);
        var c := Find(text, h, '}');
        if c < |text| then Some(SectionMatch(p, h, c)) else None
      else None
    else None
  }

  /** The pattern at p evaluated from the positions of `{`, the block and `}`. */
  lemma SectionAtParts(text: string, p: nat, name: string, b: nat, h: nat, c: nat)
    requires p <= |text| && OccursAt(text, p, name)
    requires SpaceEnd(text, p + |name|) == b && b < |text| && text[b] == '{'
    requires SpaceEnd(text, b + 1) == h && Find(text, h, '}') == c && c < |text|
    ensures SectionAt(text, p, name) == Some(SectionMatch(p, h, c))
  {
  }

  /** What a match at p says about the text. */
  lemma SectionAtFacts(text: string, p: nat, name: string)
    requires p <= |text| && SectionAt(text, p, name).Some?
    ensures OccursAt(text, p, name)
    ensures var b := SpaceEnd(text, p + |name|);
      && b < |text| && text[b] == '{'
      && SpaceEnd(text, b + 1) == SectionAt(text, p, name).value.blockStart
      && Find(text, SectionAt(text, p, name).value.blockStart, '}') == SectionAt(text, p, name).value.close
  {
  }

  /** `re.search` from position p: the first position at which the pattern matches. */
  function FindSection(text: string, name: string, p: nat): (r: Option<SectionMatch>)
    requires p <= |text|
    ensures r.Some? ==> p <= r.value.start < r.value.blockStart <= r.value.close < |text|
    ensures r.Some? ==> SectionAt(text, r.value.start, name) == r
    decreases |text| - p
  {
    var here := SectionAt(text, p, name);
    if here.Some? then here
    else if p == |text| then None
    else FindSection(text, name, p + 1)
  }

  /** The search finds the leftmost match, and none when the pattern matches nowhere. */
  lemma {:induction false} FindSectionLeftmost(text: string, name: string, p: nat)
    requires p <= |text|
    ensures var r := FindSection(text, name, p);
      && (r.Some? ==> forall q :: p <= q < r.value.start ==> SectionAt(text, q, name).None?)
      && (r.None? ==> forall q :: p <= q <= |text| ==> SectionAt(text, q, name).None?)
    decreases |text| - p
  {
    if SectionAt(text, p, name).None? && p < |text| {
      assert FindSection(text, name, p) == FindSection(text, name, p + 1);
      FindSectionLeftmost(text, name, p + 1);
    }
  }

  /**
   * `s.replace(pat, rep)` continued from position i: every occurrence of
   * `pat` from i on, left to right and without overlap, becomes `rep`.
   */
  function ReplaceFrom(s: string, pat: string, rep: string, i: nat): string
    requires |pat| > 0 && i <= |s|
    decreases |s| - i
  {
    if i + |pat| > |s| then s[i..]
    else if OccursAt(s, i, pat) then rep + ReplaceFrom(s, pat, rep, i + |pat|)
    else [s[i]] + ReplaceFrom(s, pat, rep, i + 1)
  }

  /** `s.replace(pat, rep)`. */
  function ReplaceAll(s: string, pat: string, rep: string): string
    requires |pat| > 0
  {
    ReplaceFrom(s, pat, rep, 0)
  }

  /** Where the pattern does not occur any more, the rest of the text is copied unchanged. */
  lemma {:induction false} ReplaceFromNone(s: string, pat: string, rep: string, i: nat)
    requires |pat| > 0 && i <= |s|
    requires forall q :: i <= q <= |s| ==> !OccursAt(s, q, pat)
    ensures ReplaceFrom(s, pat, rep, i) == s[i..]
    decreases |s| - i
  {
    if i + |pat| <= |s| {
      ReplaceFromNone(s, pat, rep, i + 1);
      assert s[i..] == [s[i]] + s[i + 1..];
    }
  }

  /**
   * When the next occurrence of the pattern from i is at k, the text from i
   * to k is kept, the occurrence is replaced, and the replacement goes on
   * after it.
   */
  lemma {:induction false} ReplaceFromFirst(s: string, pat: string, rep: string, i: nat, k: nat)
    requires |pat| > 0 && i <= k && OccursAt(s, k, pat)
    requires forall q :: i <= q < k ==> !OccursAt(s, q, pat)
    ensures ReplaceFrom(s, pat, rep, i) == s[i..k] + rep + ReplaceFrom(s, pat, rep, k + |pat|)
    decreases k - i
  {
    var rest := ReplaceFrom(s, pat, rep, k + |pat|);
    if i == k {
      assert s[i..k] == [];
    } else {
      ReplaceFromFirst(s, pat, rep, i + 1, k);
      assert s[i..k] == [s[i]] + s[i + 1..k];
      calc {
        ReplaceFrom(s, pat, rep, i);
        [s[i]] + ReplaceFrom(s, pat, rep, i + 1);
        [s[i]] + (s[i + 1..k] + rep + rest);
        { Regroup([s[i]], s[i + 1..k], rep, rest); }
        s[i..k] + rep + rest;
      }
    }
  }

  /** Regrouping of a concatenation. */
  lemma Regroup(a: string, b: string, c: string, d: string)
    ensures a + (b + c + d) == a + b + c + d
  {
  }

  /** A word `w` found at p and again at q: the two stretches agree character by character. */
  lemma CopyChar(text: string, w: string, p: nat, q: nat, i: nat)
    requires OccursAt(text, p, w) && OccursAt(text, q, w) && i < |w|
    ensures text[q + i] == text[p + i]
  {
    assert text[q + i] == w[i];
  }

  /** A whitespace run that ends inside one stretch ends at the same offset in an equal stretch. */
  lemma CopySpaceEnd(text: string, w: string, p: nat, q: nat, i: nat, k: nat)
    requires OccursAt(text, p, w) && OccursAt(text, q, w)
    requires i <= k < |w| && SpaceEnd(text, p + i) == p + k
    ensures SpaceEnd(text, q + i) == q + k
  {
    SpaceEndRun(text, p + i);
    forall j | q + i <= j < q + k
      ensures IsSpace(text[j])
    {
      CopyChar(text, w, p, q, j - q);
    }
    CopyChar(text, w, p, q, k);
    SpaceEndAt(text, q + i, q + k);
  }

  /** A search that stops inside one stretch stops at the same offset in an equal stretch. */
  lemma CopyFind(text: string, w: string, p: nat, q: nat, i: nat, k: nat, c: char)
    requires OccursAt(text, p, w) && OccursAt(text, q, w)
    requires i <= k < |w| && Find(text, p + i, c) == p + k
    ensures Find(text, q + i, c) == q + k
  {
    FindRun(text, p + i, c);
    forall j | q + i <= j < q + k
      ensures text[j] != c
    {
      CopyChar(text, w, p, q, j - q);
    }
    CopyChar(text, w, p, q, k);
    FindAt(text, q + i, c, q + k);
  }

  /** A name spelled out at the start of one stretch is spelled out at the start of an equal stretch. */
  lemma CopyName(text: string, w: string, p: nat, q: nat, name: string)
    requires OccursAt(text, p, w) && OccursAt(text, q, w)
    requires |name| <= |w| && OccursAt(text, p, name)
    ensures OccursAt(text, q, name)
  {
    forall i | 0 <= i < |name|
      ensures text[q + i] == name[i]
    {
      CopyChar(text, w, p, q, i);
    }
  }

  /**
   * Wherever the whole text of a match occurs again, the pattern matches
   * there too, at the same offsets: the match depends only on the characters
   * it covers.
   */
  lemma CopyMatches(text: string, name: string, m: SectionMatch, q: nat)
    requires m.start <= |text| && SectionAt(text, m.start, name) == Some(m)
    requires OccursAt(text, q, Whole(text, m))
    ensures SectionAt(text, q, name)
         == Some(SectionMatch(q, q + (m.blockStart - m.start), q + (m.close - m.start)))
  {
    var w := Whole(text, m);
    assert OccursAt(text, m.start, w);
    CopySection(text, name, w, m.start, m.blockStart, m.close, q);
  }

  /** A match that covers exactly `w` is found again wherever `w` occurs again. */
  lemma CopySection(text: string, name: string, w: string, p: nat, h: nat, c: nat, q: nat)
    requires OccursAt(text, p, w) && OccursAt(text, q, w) && p + |w| == c + 1
    requires SectionAt(text, p, name) == Some(SectionMatch(p, h, c))
    ensures SectionAt(text, q, name) == Some(SectionMatch(q, q + (h - p), q + (c - p)))
  {
    var b := SpaceEnd(text, p + |name|);
    SectionAtFacts(text, p, name);
    CopyParts(text, name, w, p, b, h, c, q);
    SectionAtParts(text, q, name, q + (b - p), q + (h - p), q + (c - p));
  }

  /** The positions that make up a match covering `w`, carried over to another occurrence of `w` at q. */
  lemma CopyParts(text: string, name: string, w: string, p: nat, b: nat, h: nat, c: nat, q: nat)
    requires OccursAt(text, p, w) && OccursAt(text, q, w) && p + |w| == c + 1
    requires p + |name| <= b < h <= c
    requires OccursAt(text, p, name) && SpaceEnd(text, p + |name|) == b && text[b] == '{'
    requires SpaceEnd(text, b + 1) == h && Find(text, h, '}') == c
    ensures OccursAt(text, q, name)
    ensures SpaceEnd(text, q + |name|) == q + (b - p) && text[q + (b - p)] == '{'
    ensures SpaceEnd(text, q + (b - p) + 1) == q + (h - p)
    ensures Find(text, q + (h - p), '}') == q + (c - p) && q + (c - p) < |text|
  {
    CopyHead(text, name, w, p, b, q);
    CopyBody(text, w, p, b, h, c, q);
  }

  /** The name, the blanks and `{` of a match, carried over. */
  lemma CopyHead(text: string, name: string, w: string, p: nat, b: nat, q: nat)
    requires OccursAt(text, p, w) && OccursAt(text, q, w) && p + |name| <= b < p + |w|
    requires OccursAt(text, p, name) && SpaceEnd(text, p + |name|) == b && text[b] == '{'
    ensures OccursAt(text, q, name)
    ensures SpaceEnd(text, q + |name|) == q + (b - p) && text[q + (b - p)] == '{'
  {
    CopyName(text, w, p, q, name);
    CopySpaceEnd(text, w, p, q, |name|, b - p);
    CopyChar(text, w, p, q, b - p);
  }

  /** The blanks after `{`, the block and `}` of a match, carried over. */
  lemma CopyBody(text: string, w: string, p: nat, b: nat, h: nat, c: nat, q: nat)
    requires OccursAt(text, p, w) && OccursAt(text, q, w)
    requires p <= b < h <= c && c + 1 == p + |w|
    requires SpaceEnd(text, b + 1) == h && Find(text, h, '}') == c
    ensures SpaceEnd(text, q + (b - p) + 1) == q + (h - p)
    ensures Find(text, q + (h - p), '}') == q + (c - p) && q + (c - p) < |text|
  {
    CopySpaceEnd(text, w, p, q, b - p + 1, h - p);
    CopyFind(text, w, p, q, h - p, c - p, '}');
  }

  /** In the leftmost match, the matched text does not occur anywhere before it. */
  lemma NoEarlierCopy(text: string, name: string, m: SectionMatch)
    requires FindSection(text, name, 0) == Some(m)
    ensures forall q :: 0 <= q < m.start ==> !OccursAt(text, q, Whole(text, m))
  {
    FindSectionLeftmost(text, name, 0);
    forall q | 0 <= q < m.start
      ensures !OccursAt(text, q, Whole(text, m))
    {
      if OccursAt(text, q, Whole(text, m)) {
        CopyMatches(text, name, m, q);
      }
    }
  }

  /** The new section: the header of the match, the new block and `}`. */
  function Rewritten(text: string, m: SectionMatch, newBlock: string): string
    requires m.start <= m.blockStart <= m.close < |text|
  {
    text[m.start..m.blockStart] + newBlock + "}"
  }

  /**
   * Replacing the leftmost match keeps the text before it, puts `rep` in its
   * place, and goes on after it.
   */
  lemma ReplaceFromMatch(text: string, m: SectionMatch, rep: string)
    requires m.start <= m.close < |text|
    requires forall q :: 0 <= q < m.start ==> !OccursAt(text, q, Whole(text, m))
    ensures ReplaceAll(text, Whole(text, m), rep)
         == text[..m.start] + rep + ReplaceFrom(text, Whole(text, m), rep, m.close + 1)
  {
    WholeOccurs(text, m);
    ReplaceFirst(text, Whole(text, m), rep, m.start);
  }

  /** The matched text occurs at the start of the match. */
  lemma WholeOccurs(text: string, m: SectionMatch)
    requires m.start <= m.close < |text|
    ensures |Whole(text, m)| > 0 && OccursAt(text, m.start, Whole(text, m))
  {
  }

  /** The whole replacement when the first occurrence of the pattern is at k. */
  lemma ReplaceFirst(s: string, pat: string, rep: string, k: nat)
    requires |pat| > 0 && OccursAt(s, k, pat)
    requires forall q :: 0 <= q < k ==> !OccursAt(s, q, pat)
    ensures ReplaceAll(s, pat, rep) == s[..k] + rep + ReplaceFrom(s, pat, rep, k + |pat|)
  {
    ReplaceFromFirst(s, pat, rep, 0, k);
    assert s[0..k] == s[..k];
  }

  /**
   * The text rebuilt around the leftmost match with `newBlock` as its block:
   * the text before the section is kept, the section is rewritten, and the
   * replacement goes on after it, rewriting every later copy of the matched
   * text.
   */
  function RewriteSection(text: string, name: string, m: SectionMatch, newBlock: string): (r: string)
    requires FindSection(text, name, 0) == Some(m)
    ensures var rep := Rewritten(text, m, newBlock);
      r == text[..m.start] + rep + ReplaceFrom(text, Whole(text, m), rep, m.close + 1)
  {
    var rep := Rewritten(text, m, newBlock);
    NoEarlierCopy(text, name, m);
    ReplaceFromMatch(text, m, rep);
    ReplaceAll(text, Whole(text, m), rep)
  }

  /**
   * `update_section_in_transport(text, name, updates)`: unchanged when the
   * section is not found; otherwise the leftmost section is rewritten with
   * its block updated, as RewriteSection describes.
   */
  function UpdateSectionInTransport(text: string, name: string, updates: seq<(string, string)>): (r: string)
    ensures FindSection(text, name, 0).None? ==> r == text
    ensures FindSection(text, name, 0).Some? ==>
      var m := FindSection(text, name, 0).value;
      var rep := Rewritten(text, m, ApplyUpdates(text[m.blockStart..m.close], updates));
      r == text[..m.start] + rep + ReplaceFrom(text, Whole(text, m), rep, m.close + 1)
  {
    match FindSection(text, name, 0)
    case None => text
    case Some(m) => RewriteSection(text, name, m, ApplyUpdates(text[m.blockStart..m.close], updates))
  }

  /** The section rewritten in place: only the block between the braces differs. */
  lemma Reassemble(text: string, m: SectionMatch, newBlock: string)
    requires m.start <= m.blockStart <= m.close < |text| && text[m.close] == '}'
    ensures text[..m.start] + Rewritten(text, m, newBlock) + text[m.close + 1..]
         == text[..m.blockStart] + newBlock + text[m.close..]
  {
    var rest := text[m.close + 1..];
    assert text[..m.start] + text[m.start..m.blockStart] == text[..m.blockStart];
    assert text[m.close..] == "}" + rest;
    Regroup(text[..m.start], text[m.start..m.blockStart], newBlock, "}");
  }

  /** With no later copy of the match, the rebuilt text differs from the original only in the block. */
  lemma RewriteInPlace(text: string, name: string, m: SectionMatch, newBlock: string)
    requires FindSection(text, name, 0) == Some(m)
    requires forall q :: m.close + 1 <= q <= |text| ==> !OccursAt(text, q, Whole(text, m))
    ensures RewriteSection(text, name, m, newBlock) == text[..m.blockStart] + newBlock + text[m.close..]
  {
    RebuiltInPlace(text, m, newBlock);
  }

  /** The rebuilt text, when nothing after the match is replaced. */
  lemma RebuiltInPlace(text: string, m: SectionMatch, newBlock: string)
    requires m.start <= m.blockStart <= m.close < |text| && text[m.close] == '}'
    requires forall q :: m.close + 1 <= q <= |text| ==> !OccursAt(text, q, Whole(text, m))
    ensures var rep := Rewritten(text, m, newBlock);
      text[..m.start] + rep + ReplaceFrom(text, Whole(text, m), rep, m.close + 1)
        == text[..m.blockStart] + newBlock + text[m.close..]
  {
    var rep := Rewritten(text, m, newBlock);
    KeepRest(text, Whole(text, m), rep, text[..m.start], m.close + 1);
    Reassemble(text, m, newBlock);
  }

  /** After the last occurrence of the pattern, the replacement copies the text unchanged. */
  lemma KeepRest(text: string, pat: string, rep: string, head: string, i: nat)
    requires |pat| > 0 && i <= |text|
    requires forall q :: i <= q <= |text| ==> !OccursAt(text, q, pat)
    ensures head + rep + ReplaceFrom(text, pat, rep, i) == head + rep + text[i..]
  {
    ReplaceFromNone(text, pat, rep, i);
  }

  /**
   * When the matched section does not occur a second time, the result is
   * the text with only the block between the braces rewritten.
   */
  lemma OnlyBlockChanges(text: string, name: string, updates: seq<(string, string)>)
    requires FindSection(text, name, 0).Some?
    requires var m := FindSection(text, name, 0).value;
      forall q :: m.close + 1 <= q <= |text| ==> !OccursAt(text, q, Whole(text, m))
    ensures var m := FindSection(text, name, 0).value;
      UpdateSectionInTransport(text, name, updates)
        == text[..m.blockStart] + ApplyUpdates(text[m.blockStart..m.close], updates) + text[m.close..]
  {
    var m := FindSection(text, name, 0).value;
    RewriteInPlace(text, name, m, ApplyUpdates(text[m.blockStart..m.close], updates));
  }
}
