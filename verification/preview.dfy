/**
 * Card-front previews and block context (renforce/tex_parser.py:223-270,
 * 349-402): `get_first_sentence` and `extract_neighbor_context`.
 */
module TexPreview {
  import opened Results
  import opened Text

  predicate IsTerminator(c: char) { c == '.' || c == '!' || c == '?' }

  /** Length of the run of characters other than `c` at the start of `s`. */
  function RunNot(s: string, c: char): (n: nat)
    ensures n <= |s|
    ensures forall i :: 0 <= i < n ==> s[i] != c
    ensures n < |s| ==> s[n] == c
  {
    if |s| > 0 && s[0] != c then 1 + RunNot(s[1..], c) else 0
  }

  /** Length of the run of `[a-z]` at the start of `s`. */
  function LowerRun(s: string): (n: nat)
    ensures n <= |s|
    ensures forall i :: 0 <= i < n ==> 'a' <= s[i] <= 'z'
    ensures n < |s| ==> !('a' <= s[n] <= 'z')
  {
    if |s| > 0 && 'a' <= s[0] <= 'z' then 1 + LowerRun(s[1..]) else 0
  }

  /**
   * `[^}]+\}` matched at `h`, after a header of length `h`: the length of the
   * whole match, or 0 when there is none.
   */
  function BracedFrom(s: string, h: nat): (n: nat)
    ensures n == 0 || (h + 2 <= n <= |s| && s[n - 1] == '}')
    ensures n > 0 ==> forall i :: h <= i < n - 1 ==> s[i] != '}'
  {
    if h > |s| then 0
    else
      var k := RunNot(s[h..], '}');
      if k >= 1 && h + k < |s| then h + k + 1 else 0
  }

  /** The pattern `\\label\{[^}]+\}` at the start of `s`. */
  function LabelLen(s: string): nat {
    if StartsWith(s, "\\label{") then BracedFrom(s, 7) else 0
  }

  /** The pattern `\\cite[a-z]*\{[^}]+\}` at the start of `s`. */
  function CiteLen(s: string): nat {
    if !StartsWith(s, "\\cite") then 0
    else
      var a := 5 + LowerRun(s[5..]);
      if a < |s| && s[a] == '{' then BracedFrom(s, a + 1) else 0
  }

  /** The pattern `\\ref\{[^}]+\}` at the start of `s`. */
  function RefLen(s: string): nat {
    if StartsWith(s, "\\ref{") then BracedFrom(s, 5) else 0
  }

  /** Labels are dropped; citations and references become placeholders. */
  function DropReferences(t: string): string {
    SubAll(SubAll(SubAll(t, LabelLen, ""), CiteLen, "[citation]"), RefLen, "[ref]")
  }

  /** The text the sentence is taken from: stripped, whitespace runs collapsed, references replaced. */
  function PreviewText(text: string): string {
    CollapseSpaces(Strip(DropReferences(CollapseSpaces(Strip(text)))))
  }

  /** The positions of `t` holding a sentence terminator. */
  function TerminatorAt(t: string): nat -> bool {
    (i: nat) => i < |t| && IsTerminator(t[i])
  }

  /**
   * `re.match(r"^([^.!?]+[.!?])(?:\s|$)", t)`: the length of group 1. The
   * group runs to the first terminator, so there is no backtracking choice.
   */
  function SentenceLen(t: string): (k: Option<nat>)
    ensures k.Some? ==> 2 <= k.value <= |t| && IsTerminator(t[k.value - 1])
    ensures k.Some? ==> forall i :: 0 <= i < k.value - 1 ==> !IsTerminator(t[i])
    ensures k.Some? ==> k.value == |t| || IsSpace(t[k.value])
  {
    match FirstWhere(0, |t|, TerminatorAt(t))
    case Some(n) =>
      assert forall i :: 0 <= i < n ==> !IsTerminator(t[i]) by {
        forall i | 0 <= i < n ensures !IsTerminator(t[i]) {
          assert !TerminatorAt(t)(i);
        }
      }
      if n >= 1 && (n + 1 == |t| || IsSpace(t[n + 1])) then Some(n + 1) else None
    case None => None
  }

  /** Every prefix with the shape of a first sentence is the one `SentenceLen` finds. */
  lemma SentenceLenComplete(t: string, k: nat)
    requires 2 <= k <= |t| && IsTerminator(t[k - 1])
    requires forall i :: 0 <= i < k - 1 ==> !IsTerminator(t[i])
    requires k == |t| || IsSpace(t[k])
    ensures SentenceLen(t) == Some(k)
  {
    assert TerminatorAt(t)(k - 1);
    forall i | 0 <= i < k - 1 ensures !TerminatorAt(t)(i) {
      assert !IsTerminator(t[i]);
    }
  }

  /** The position of the last `c` in `s`. */
  function LastIndex(s: string, c: char): (k: Option<nat>)
    ensures k.Some? ==> k.value < |s| && s[k.value] == c
    ensures k.Some? ==> forall i :: k.value < i < |s| ==> s[i] != c
    ensures k.None? ==> forall i :: 0 <= i < |s| ==> s[i] != c
  {
    if |s| == 0 then None
    else if s[|s| - 1] == c then Some(|s| - 1)
    else
      var k := LastIndex(s[..|s| - 1], c);
      assert forall i :: 0 <= i < |s| - 1 ==> s[..|s| - 1][i] == s[i];
      k
  }

  /** `x.rsplit(" ", 1)[0]`: everything before the last blank, or all of `x`. */
  function BeforeLastBlank(x: string): (r: string)
    ensures StartsWith(x, r)
    ensures r == x || (|r| < |x| && x[|r|] == ' ')
  {
    match LastIndex(x, ' ')
    case Some(i) => x[..i]
    case None => x
  }

  /** `get_first_sentence(text, max_length)`. */
  function FirstSentence(text: string, maxLength: int): (r: string)
    ensures maxLength >= 0 ==> |r| <= maxLength + 3
  {
    SentenceOrCut(PreviewText(text), maxLength)
  }

  /** The choice between the first sentence, the whole preview text, and a cut at a blank. */
  function SentenceOrCut(t: string, maxLength: int): (r: string)
    ensures maxLength >= 0 ==> |r| <= maxLength + 3
  {
    var sentence := SentenceLen(t);
    if sentence.Some? && |Strip(t[..sentence.value])| <= maxLength then Strip(t[..sentence.value])
    else if |t| <= maxLength then t
    else BeforeLastBlank(PySlice(t, 0, maxLength)) + "..."
  }

  lemma CollapseSpacesFirst(s: string)
    requires |s| > 0 && !IsSpace(s[0])
    ensures |CollapseSpaces(s)| > 0 && CollapseSpaces(s)[0] == s[0]
  {
  }

  /** Collapsing keeps a last character that is not blank. */
  lemma {:induction false} CollapseSpacesLast(s: string)
    requires |s| > 0 && !IsSpace(s[|s| - 1])
    ensures var r := CollapseSpaces(s); |r| > 0 && r[|r| - 1] == s[|s| - 1]
    decreases |s|
  {
    var k := LeadingSpaces(s);
    if k > 0 {
      assert k < |s|;
      CollapseSpacesLast(s[k..]);
      assert CollapseSpaces(s) == " " + CollapseSpaces(s[k..]);
    } else if |s| > 1 {
      CollapseSpacesLast(s[1..]);
      assert CollapseSpaces(s) == [s[0]] + CollapseSpaces(s[1..]);
    } else {
      assert CollapseSpaces(s) == [s[0]] + CollapseSpaces(s[1..]);
    }
  }

  /** Collapsing text that neither starts nor ends with whitespace keeps both ends. */
  lemma CollapseKeepsEnds(s: string)
    requires |s| > 0 ==> !IsSpace(s[0]) && !IsSpace(s[|s| - 1])
    ensures var t := CollapseSpaces(s); |t| > 0 ==> !IsSpace(t[0]) && !IsSpace(t[|t| - 1])
  {
    if |s| > 0 {
      CollapseSpacesFirst(s);
      CollapseSpacesLast(s);
    } else {
      assert CollapseSpaces(s) == "";
    }
  }

  /** The preview text neither starts nor ends with whitespace. */
  lemma PreviewTextStripped(text: string)
    ensures var t := PreviewText(text); |t| > 0 ==> !IsSpace(t[0]) && !IsSpace(t[|t| - 1])
  {
    var u := Strip(DropReferences(CollapseSpaces(Strip(text))));
    CollapseKeepsEnds(u);
    assert PreviewText(text) == CollapseSpaces(u);
  }

  /**
   * The result is a prefix of the preview text, or a prefix of it followed by
   * `...`; a first sentence that fits is returned whole.
   */
  lemma FirstSentenceShape(text: string, maxLength: int)
    ensures var t := PreviewText(text); var r := FirstSentence(text, maxLength);
      || StartsWith(t, r)
      || (|r| >= 3 && EndsWith(r, "...") && StartsWith(t, r[..|r| - 3]))
    ensures var t := PreviewText(text); var k := SentenceLen(t);
      k.Some? && k.value <= maxLength ==> FirstSentence(text, maxLength) == t[..k.value]
  {
    PreviewTextStripped(text);
    CutShape(PreviewText(text), maxLength);
  }

  lemma CutShape(t: string, maxLength: int)
    requires |t| > 0 ==> !IsSpace(t[0])
    ensures var r := SentenceOrCut(t, maxLength);
      || StartsWith(t, r)
      || (|r| >= 3 && EndsWith(r, "...") && StartsWith(t, r[..|r| - 3]))
    ensures var k := SentenceLen(t);
      k.Some? && k.value <= maxLength ==> SentenceOrCut(t, maxLength) == t[..k.value]
  {
    var k := SentenceLen(t);
    if k.Some? {
      StripUnchanged(t[..k.value]);
    }
    var r := SentenceOrCut(t, maxLength);
    if !StartsWith(t, r) {
      var x := PySlice(t, 0, maxLength);
      assert StartsWith(t, x);
      var p := BeforeLastBlank(x);
      assert r == p + "...";
      assert r[..|r| - 3] == p;
      assert r[|r| - 3..] == "...";
    }
  }

  /**
   * When the text has to be cut, the cut falls at a blank: what is kept is
   * at most `maxLength` characters, followed by a blank in the preview text,
   * unless the first `maxLength` characters hold no blank at all.
   */
  lemma TruncatesAtBlank(text: string, maxLength: int)
    requires maxLength >= 0
    requires |PreviewText(text)| > maxLength
    requires var t := PreviewText(text); var k := SentenceLen(t); k.None? || k.value > maxLength
    ensures var t := PreviewText(text); var r := FirstSentence(text, maxLength);
      && EndsWith(r, "...")
      && var p := r[..|r| - 3];
      && |p| <= maxLength && StartsWith(t, p)
      && (t[|p|] == ' ' || (p == t[..maxLength] && forall i :: 0 <= i < maxLength ==> t[i] != ' '))
  {
    PreviewTextStripped(text);
    CutAtBlank(PreviewText(text), maxLength);
  }

  lemma CutAtBlank(t: string, maxLength: int)
    requires maxLength >= 0 && |t| > maxLength
    requires |t| > 0 ==> !IsSpace(t[0])
    requires var k := SentenceLen(t); k.None? || k.value > maxLength
    ensures var r := SentenceOrCut(t, maxLength);
      && EndsWith(r, "...")
      && var p := r[..|r| - 3];
      && |p| <= maxLength && StartsWith(t, p)
      && (t[|p|] == ' ' || (p == t[..maxLength] && forall i :: 0 <= i < maxLength ==> t[i] != ' '))
  {
    CutIsBeforeBlank(t, maxLength);
    BlankCutShape(t, maxLength, BeforeLastBlank(t[..maxLength]));
  }

  /** Past the sentence test, the text is cut before the last blank of its first `maxLength` characters. */
  lemma CutIsBeforeBlank(t: string, maxLength: int)
    requires maxLength >= 0 && |t| > maxLength
    requires |t| > 0 ==> !IsSpace(t[0])
    requires var k := SentenceLen(t); k.None? || k.value > maxLength
    ensures SentenceOrCut(t, maxLength) == BeforeLastBlank(t[..maxLength]) + "..."
  {
    var k := SentenceLen(t);
    if k.Some? {
      StripUnchanged(t[..k.value]);
    }
    assert PySlice(t, 0, maxLength) == t[..maxLength];
  }

  /** A prefix cut before the last blank of `t[..maxLength]`, with `...` after it. */
  lemma BlankCutShape(t: string, maxLength: nat, p: string)
    requires maxLength < |t| && p == BeforeLastBlank(t[..maxLength])
    ensures var r := p + "...";
      && EndsWith(r, "...") && r[..|r| - 3] == p
      && |p| <= maxLength && StartsWith(t, p)
      && (t[|p|] == ' ' || (p == t[..maxLength] && forall i :: 0 <= i < maxLength ==> t[i] != ' '))
  {
    var x := t[..maxLength];
    var r := p + "...";
    assert r[..|r| - 3] == p;
    assert r[|r| - 3..] == "...";
    if p != x {
      assert t[|p|] == x[|p|];
    } else {
      assert LastIndex(x, ' ').None?;
    }
  }

  /** What `extract_neighbor_context` gathers: the lines above and below the block. */
  datatype Context = Context(before: seq<string>, after: seq<string>)

  /** The two slices of `extract_neighbor_context`, with Python's floor division and slicing. */
  function ContextLines(content: string, startLine: int, endLine: int, total: int): Context {
    ContextOf(Lines(content), startLine, endLine, total)
  }

  /** The same on the file's lines. */
  function ContextOf(lines: seq<string>, startLine: int, endLine: int, total: int): Context {
    var above := total / 2;
    var below := total - above;
    var startIdx := startLine - 1;
    var endIdx := endLine - 1;
    var contextStart := Max(0, startIdx - above);
    var contextEnd := Min(|lines|, endIdx + 1 + below);
    Context(PySlice(lines, contextStart, startIdx), PySlice(lines, endIdx + 1, contextEnd))
  }

  /** `"\n".join(ls)`. */
  function JoinLines(ls: seq<string>): string {
    if |ls| == 0 then ""
    else if |ls| == 1 then ls[0]
    else ls[0] + "\n" + JoinLines(ls[1..])
  }

  /** `extract_neighbor_context(content, start, end, total)`. */
  function NeighborContext(content: string, startLine: int, endLine: int, total: int): (r: string)
    ensures var c := ContextLines(content, startLine, endLine, total);
      r == "" <==> c.before == [] && c.after == []
    ensures var c := ContextLines(content, startLine, endLine, total);
      c.before != [] ==> StartsWith(r, "% Context before:\n")
    ensures var c := ContextLines(content, startLine, endLine, total);
      c.before == [] && c.after != [] ==> StartsWith(r, "% Context after:\n")
  {
    var c := ContextLines(content, startLine, endLine, total);
    var b := "% Context before:\n" + JoinLines(c.before);
    var a := "% Context after:\n" + JoinLines(c.after);
    if c.before != [] && c.after != [] then b + "\n\n" + a
    else if c.before != [] then b
    else if c.after != [] then a
    else ""
  }

  /**
   * For a block inside the file, the context is the up to `total // 2` lines
   * just above its first line and the up to `total - total // 2` lines just
   * below its last line; no line of the block itself is included.
   */
  lemma ContextAroundBlock(lines: seq<string>, startLine: int, endLine: int, total: int)
    requires 1 <= startLine <= endLine <= |lines|
    requires total >= 0
    ensures var c := ContextOf(lines, startLine, endLine, total);
      && |c.before| == Min(total / 2, startLine - 1)
      && c.before == lines[startLine - 1 - |c.before|..startLine - 1]
      && |c.after| == Min(total - total / 2, |lines| - endLine)
      && c.after == lines[endLine..endLine + |c.after|]
  {
    var c := ContextOf(lines, startLine, endLine, total);
    var above := total / 2;
    var below := total - above;
    assert 0 <= above && 0 <= below;
    var cs := Max(0, startLine - 1 - above);
    var ce := Min(|lines|, endLine + below);
    assert c.before == lines[cs..startLine - 1];
    assert c.after == lines[endLine..ce];
  }

}
