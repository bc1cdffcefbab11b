/**
 * Block extraction (renforce/tex_parser.py:20-125): comment lines are blanked,
 * `\begin{env}[title] ... \end{env}` pairs are found left to right, line
 * numbers are counted, and an identity marker is looked up in the lines just
 * above each block.
 */
module TexParser {
  import opened Results
  import opened Text
  import opened Hashing

  /** One extracted environment (`ExtractedEnvironment`). */
  datatype Environment = Environment(
    env: string,
    title: Option<string>,
    body: string,
    startLine: nat,
    endLine: nat,
    rawText: string,
    guid: Option<string>)

  /** A line whose first non-blank character is `%`. */
  predicate IsCommentLine(line: string) {
    StartsWith(LStrip(line), "%")
  }

  /** Comment lines become empty; every other line is kept as it is. */
  function BlankComments(lines: seq<string>): (r: seq<string>)
    ensures |r| == |lines|
    ensures forall i :: 0 <= i < |r| ==> !IsCommentLine(r[i])
    ensures forall i :: 0 <= i < |r| ==> (r[i] == lines[i] <==> !IsCommentLine(lines[i]))
    ensures forall i :: 0 <= i < |r| ==> r[i] == lines[i] || r[i] == ""
  {
    seq(|lines|, i requires 0 <= i < |lines| => if IsCommentLine(lines[i]) then "" else lines[i])
  }

  /** The text the extraction regex runs over. */
  function CleanContent(content: string): string {
    Unlines(BlankComments(Lines(content)))
  }

  /** Blanking keeps the line structure: line `k` of the cleaned text is line `k` of the input, or empty. */
  lemma CleanContentLines(content: string)
    ensures Lines(CleanContent(content)) == BlankComments(Lines(content))
  {
    var ls := BlankComments(Lines(content));
    forall i | 0 <= i < |ls| ensures '\n' !in ls[i] {
      assert ls[i] == Lines(content)[i] || ls[i] == "";
    }
    LinesUnlines(ls);
  }

  function BeginTag(e: string): string { "\\begin{" + e + "}" }

  function EndTag(e: string): string { "\\end{" + e + "}" }

  /** The first occurrence of `w` at or after `from`. */
  function FindFrom(t: string, w: string, from: nat): (r: Option<nat>)
    decreases |t| - from
    ensures r.Some? ==> from <= r.value && OccursAt(t, r.value, w)
    ensures r.Some? ==> forall k :: from <= k < r.value ==> !OccursAt(t, k, w)
  {
    if from + |w| > |t| then None
    else if OccursAt(t, from, w) then Some(from)
    else FindFrom(t, w, from + 1)
  }

  /** Where a regex match lies: the begin tag, the optional title, the body, the end tag. */
  datatype Match = Match(env: string, title: Option<string>, start: nat, bodyStart: nat, bodyEnd: nat, end: nat)

  /**
   * A match begins with `\begin{env}`, ends with `\end{env}`, and its body holds
   * no earlier `\end{env}`; a title sits in brackets right after the begin tag.
   */
  predicate ValidMatch(t: string, m: Match) {
    && m.start < m.bodyStart <= m.bodyEnd
    && m.end == m.bodyEnd + |EndTag(m.env)| <= |t|
    && OccursAt(t, m.start, BeginTag(m.env))
    && OccursAt(t, m.bodyEnd, EndTag(m.env))
    && (forall k :: m.bodyStart <= k < m.bodyEnd ==> !OccursAt(t, k, EndTag(m.env)))
    && (m.title.None? ==> m.bodyStart == m.start + |BeginTag(m.env)|)
    && (m.title.Some? ==>
          && m.start + |BeginTag(m.env)| + 2 + |m.title.value| == m.bodyStart
          && t[m.start + |BeginTag(m.env)|] == '['
          && t[m.start + |BeginTag(m.env)| + 1..m.bodyStart - 1] == m.title.value
          && t[m.bodyStart - 1] == ']'
          && ']' !in m.title.value)
  }

  /** The first `]` at or after `from`. */
  function FindChar(t: string, c: char, from: nat): (r: Option<nat>)
    decreases |t| - from
    ensures r.Some? ==> from <= r.value < |t| && t[r.value] == c
    ensures r.Some? ==> forall k :: from <= k < r.value ==> t[k] != c
  {
    if from >= |t| then None
    else if t[from] == c then Some(from)
    else FindChar(t, c, from + 1)
  }

  /** The title branch: `[`, the shortest title up to `]`, then the first end tag after it. */
  function TitledMatchAt(t: string, e: string, p: nat, q: nat): (r: Option<Match>)
    ensures r.Some? ==> r.value.title.Some? && r.value.bodyStart > q
  {
    if q < |t| && t[q] == '[' then
      match FindChar(t, ']', q + 1)
      case Some(j) => TitledBodyAt(t, e, p, q, j)
      case None => None
    else None
  }

  /** After the title `t[q + 1..j]` and its `]`: the body runs to the first end tag. */
  function TitledBodyAt(t: string, e: string, p: nat, q: nat, j: nat): (r: Option<Match>)
    requires q + 1 <= j < |t|
    ensures r.Some? ==> r.value.title.Some? && r.value.bodyStart > q
  {
    match FindFrom(t, EndTag(e), j + 1)
    case Some(k) => Some(Match(e, Some(t[q + 1..j]), p, j + 1, k, k + |EndTag(e)|))
    case None => None
  }

  /** The branch without a title: the body runs to the first end tag. */
  function UntitledMatchAt(t: string, e: string, p: nat, q: nat): Option<Match> {
    match FindFrom(t, EndTag(e), q)
    case Some(k) => Some(Match(e, None, p, q, k, k + |EndTag(e)|))
    case None => None
  }

  /**
   * The regex `\\begin\{env\}(?:\[(?P<title>.*?)\])?(?P<body>.*?)\\end\{env\}`
   * (DOTALL) tried at `p` for one name. The title group is tried first, with
   * the shortest title; it is dropped when no end tag follows it.
   */
  function MatchEnvAt(t: string, e: string, p: nat): (r: Option<Match>)
    ensures r.Some? ==> ValidMatch(t, r.value) && r.value.env == e && r.value.start == p
  {
    if !OccursAt(t, p, BeginTag(e)) then None
    else
      var q := p + |BeginTag(e)|;
      var titled := TitledMatchAt(t, e, p, q);
      if titled.Some? then titled else UntitledMatchAt(t, e, p, q)
  }

  lemma {:induction false} FindFromNone(t: string, w: string, from: nat)
    requires FindFrom(t, w, from).None?
    ensures forall k :: from <= k ==> !OccursAt(t, k, w)
    decreases |t| - from
  {
    if from + |w| <= |t| {
      FindFromNone(t, w, from + 1);
    }
  }

  /** A titled match has an end tag somewhere after the begin tag. */
  lemma TitledHasEndTag(t: string, e: string, p: nat, q: nat)
    requires TitledMatchAt(t, e, p, q).Some?
    ensures FindFrom(t, EndTag(e), q).Some?
  {
    var j := FindChar(t, ']', q + 1).value;
    var k := FindFrom(t, EndTag(e), j + 1).value;
    if FindFrom(t, EndTag(e), q).None? {
      FindFromNone(t, EndTag(e), q);
      assert false;
    }
  }

  /** A match needs a begin tag at `p` and an end tag after it. */
  lemma MatchEnvAtNeedsTags(t: string, e: string, p: nat)
    requires MatchEnvAt(t, e, p).Some?
    ensures OccursAt(t, p, BeginTag(e)) && FindFrom(t, EndTag(e), p + |BeginTag(e)|).Some?
  {
    var q := p + |BeginTag(e)|;
    assert OccursAt(t, p, BeginTag(e));
    assert TitledMatchAt(t, e, p, q).Some? || UntitledMatchAt(t, e, p, q).Some?;
    EitherHasEndTag(t, e, p, q);
  }

  /** Either shape of match has an end tag after the begin tag. */
  lemma EitherHasEndTag(t: string, e: string, p: nat, q: nat)
    requires TitledMatchAt(t, e, p, q).Some? || UntitledMatchAt(t, e, p, q).Some?
    ensures FindFrom(t, EndTag(e), q).Some?
  {
    if TitledMatchAt(t, e, p, q).Some? {
      TitledHasEndTag(t, e, p, q);
    }
  }

  /** A begin tag at `p` with an end tag after it always yields a match. */
  lemma MatchEnvAtFromTags(t: string, e: string, p: nat)
    requires OccursAt(t, p, BeginTag(e)) && FindFrom(t, EndTag(e), p + |BeginTag(e)|).Some?
    ensures MatchEnvAt(t, e, p).Some?
  {
  }

  /** A begin tag at `p` yields a match exactly when an end tag with the same name follows it. */
  lemma MatchEnvAtSome(t: string, e: string, p: nat)
    ensures MatchEnvAt(t, e, p).Some?
      <==> OccursAt(t, p, BeginTag(e)) && FindFrom(t, EndTag(e), p + |BeginTag(e)|).Some?
  {
    if MatchEnvAt(t, e, p).Some? {
      MatchEnvAtNeedsTags(t, e, p);
    }
    if OccursAt(t, p, BeginTag(e)) && FindFrom(t, EndTag(e), p + |BeginTag(e)|).Some? {
      MatchEnvAtFromTags(t, e, p);
    }
  }

  /** The env alternation: names are tried in list order. */
  function MatchAt(t: string, envs: seq<string>, p: nat): (r: Option<Match>)
    ensures r.Some? ==> ValidMatch(t, r.value) && r.value.start == p && r.value.env in envs
    ensures r.None? <==> forall i :: 0 <= i < |envs| ==> MatchEnvAt(t, envs[i], p).None?
  {
    if |envs| == 0 then None
    else
      match MatchEnvAt(t, envs[0], p)
      case Some(m) => Some(m)
      case None =>
        var r := MatchAt(t, envs[1..], p);
        assert forall i :: 1 <= i < |envs| ==> envs[i] == envs[1..][i - 1];
        r
  }

  /** `pattern.finditer(t)` from position `from`. */
  function FindAll(t: string, envs: seq<string>, from: nat): (ms: seq<Match>)
    decreases |t| - from
    ensures forall i :: 0 <= i < |ms| ==> ValidMatch(t, ms[i]) && ms[i].env in envs && from <= ms[i].start
    ensures forall i, j :: 0 <= i < j < |ms| ==> ms[i].end <= ms[j].start
  {
    if from >= |t| then []
    else
      match MatchAt(t, envs, from)
      case Some(m) =>
        var rest := FindAll(t, envs, m.end);
        ConsMatches(t, envs, from, m, rest);
        [m] + rest
      case None => FindAll(t, envs, from + 1)
  }

  /** A match followed by matches that start after it ends keeps the order and the bounds. */
  lemma ConsMatches(t: string, envs: seq<string>, from: nat, m: Match, rest: seq<Match>)
    requires ValidMatch(t, m) && m.env in envs && from <= m.start
    requires forall i :: 0 <= i < |rest| ==> ValidMatch(t, rest[i]) && rest[i].env in envs && m.end <= rest[i].start
    requires forall i, j :: 0 <= i < j < |rest| ==> rest[i].end <= rest[j].start
    ensures var ms := [m] + rest;
      && (forall i :: 0 <= i < |ms| ==> ValidMatch(t, ms[i]) && ms[i].env in envs && from <= ms[i].start)
      && (forall i, j :: 0 <= i < j < |ms| ==> ms[i].end <= ms[j].start)
  {
    var ms := [m] + rest;
    assert forall i :: 0 < i < |ms| ==> ms[i] == rest[i - 1];
  }

  /** No match of `ms` covers position `p`. */
  predicate Uncovered(ms: seq<Match>, p: nat) {
    forall i :: 0 <= i < |ms| ==> !(ms[i].start <= p < ms[i].end)
  }

  /**
   * `finditer` semantics: every match found is the match at its own start, and
   * at no position outside the found matches does the pattern match.
   */
  lemma {:induction false} FindAllLeftmost(t: string, envs: seq<string>, from: nat)
    ensures var ms := FindAll(t, envs, from);
      && (forall i :: 0 <= i < |ms| ==> MatchAt(t, envs, ms[i].start) == Some(ms[i]))
      && (forall p :: from <= p < |t| && Uncovered(ms, p) ==> MatchAt(t, envs, p).None?)
    decreases |t| - from
  {
    if from < |t| {
      match MatchAt(t, envs, from)
      case Some(m) =>
        FindAllLeftmost(t, envs, m.end);
        FindAllLeftmostStep(t, envs, from, m);
      case None =>
        FindAllLeftmost(t, envs, from + 1);
        var ms := FindAll(t, envs, from);
        assert ms == FindAll(t, envs, from + 1);
        forall p | from <= p < |t| && Uncovered(ms, p) ensures MatchAt(t, envs, p).None? {
          if p == from {
            assert MatchAt(t, envs, from).None?;
          }
        }
    }
  }

  lemma FindAllLeftmostStep(t: string, envs: seq<string>, from: nat, m: Match)
    requires from < |t| && MatchAt(t, envs, from) == Some(m)
    requires var rest := FindAll(t, envs, m.end);
      && (forall i :: 0 <= i < |rest| ==> MatchAt(t, envs, rest[i].start) == Some(rest[i]))
      && (forall p :: m.end <= p < |t| && Uncovered(rest, p) ==> MatchAt(t, envs, p).None?)
    ensures var ms := FindAll(t, envs, from);
      && (forall i :: 0 <= i < |ms| ==> MatchAt(t, envs, ms[i].start) == Some(ms[i]))
      && (forall p :: from <= p < |t| && Uncovered(ms, p) ==> MatchAt(t, envs, p).None?)
  {
    var rest := FindAll(t, envs, m.end);
    var ms := FindAll(t, envs, from);
    assert ms == [m] + rest;
    forall i | 0 <= i < |ms| ensures MatchAt(t, envs, ms[i].start) == Some(ms[i]) {
      if i > 0 {
        assert ms[i] == rest[i - 1];
      }
    }
    forall p | from <= p < |t| && Uncovered(ms, p) ensures MatchAt(t, envs, p).None? {
      assert !(ms[0].start <= p < ms[0].end);
      forall i | 0 <= i < |rest| ensures !(rest[i].start <= p < rest[i].end) {
        assert rest[i] == ms[i + 1];
      }
    }
  }

  /** Hex digit under `re.IGNORECASE`. */
  predicate IsHexCI(c: char) {
    ('0' <= c <= '9') || ('a' <= c <= 'f') || ('A' <= c <= 'F')
  }

  function HexRun(s: string): (n: nat)
    ensures n <= |s|
    ensures forall i :: 0 <= i < n ==> IsHexCI(s[i])
    ensures n < |s| ==> !IsHexCI(s[n])
  {
    if |s| > 0 && IsHexCI(s[0]) then 1 + HexRun(s[1..]) else 0
  }

  /** `s` starts with the lower-case word `w`, ignoring ASCII case. */
  predicate StartsWithCI(s: string, w: string) {
    |w| <= |s| && forall i :: 0 <= i < |w| ==> LowerChar(s[i]) == w[i]
  }

  /** A marker match: the length of its prefix (group 1 of the rewrite pattern) and its whole length. */
  datatype MarkerSpan = MarkerSpan(prefixLen: nat, len: nat)

  /**
   * The marker regex `%\s*(?:anki-tex-)?guid:\s*([a-f0-9]{8,40})` (ignoring
   * case) tried at the start of `s`. The blank runs and the optional word are
   * matched greedily and backtracking cannot change the outcome, since what
   * follows each of them starts with a non-blank; the hex run is cut at 40.
   */
  function MarkerSpanAt(s: string): (r: Option<MarkerSpan>)
    ensures r.Some? ==> r.value.prefixLen + 8 <= r.value.len <= r.value.prefixLen + 40 && r.value.len <= |s|
    ensures r.Some? ==> forall i :: r.value.prefixLen <= i < r.value.len ==> IsHexCI(s[i])
    ensures r.Some? ==> s[0] == '%'
  {
    if |s| == 0 || s[0] != '%' then None
    else
      var a := 1 + LeadingSpaces(s[1..]);
      var b: int :=
        if StartsWithCI(s[a..], "anki-tex-guid:") then a + 14
        else if StartsWithCI(s[a..], "guid:") then a + 5
        else -1;
      if b < 0 then None else GuidSpanFrom(s, b)
  }

  /** After `guid:`: optional blanks, then a run of 8 to 40 hex digits (the captured group). */
  function GuidSpanFrom(s: string, b: nat): (r: Option<MarkerSpan>)
    requires b <= |s|
    ensures r.Some? ==> b <= r.value.prefixLen
    ensures r.Some? ==> r.value.prefixLen + 8 <= r.value.len <= r.value.prefixLen + 40 && r.value.len <= |s|
    ensures r.Some? ==> forall i :: r.value.prefixLen <= i < r.value.len ==> IsHexCI(s[i])
  {
    var c := b + LeadingSpaces(s[b..]);
    var n := HexRun(s[c..]);
    if n >= 8 then
      HexRunAt(s, c);
      Some(MarkerSpan(c, c + Min(n, 40)))
    else None
  }

  /** The hex run of a suffix, in the positions of the whole string. */
  lemma HexRunAt(s: string, c: nat)
    requires c <= |s|
    ensures c + HexRun(s[c..]) <= |s|
    ensures forall i :: c <= i < c + HexRun(s[c..]) ==> IsHexCI(s[i])
  {
    var u := s[c..];
    var n := HexRun(u);
    forall i | c <= i < c + n
      ensures IsHexCI(s[i])
    {
      assert u[i - c] == s[i];
    }
  }

  /** The marker regex tried at `p`: its captured hex run. */
  function MarkerAt(line: string, p: nat): (r: Option<string>)
    ensures r.Some? ==> 8 <= |r.value| <= 40 && forall i :: 0 <= i < |r.value| ==> IsHexCI(r.value[i])
    ensures r.Some? ==> p < |line| && line[p] == '%'
  {
    if p >= |line| then None
    else
      var rest := line[p..];
      match MarkerSpanAt(rest)
      case Some(sp) =>
        HexSlice(rest, sp.prefixLen, sp.len);
        Some(rest[sp.prefixLen..sp.len])
      case None => None
  }

  /** A stretch of hex digits, cut out, is a string of hex digits. */
  lemma HexSlice(s: string, a: nat, b: nat)
    requires a <= b <= |s|
    requires forall i :: a <= i < b ==> IsHexCI(s[i])
    ensures forall i :: 0 <= i < |s[a..b]| ==> IsHexCI(s[a..b][i])
  {
    assert forall i :: 0 <= i < |s[a..b]| ==> s[a..b][i] == s[a + i];
  }

  /** The positions of `line` where the marker regex matches. */
  function MarkerStarts(line: string): nat -> bool {
    (p: nat) => MarkerAt(line, p).Some?
  }

  /** `guid_pattern.search(line)`: the captured group of the leftmost match. */
  function SearchMarker(line: string): (r: Option<string>)
    ensures r.Some? ==> 8 <= |r.value| <= 40
  {
    match FirstWhere(0, |line|, MarkerStarts(line))
    case Some(k) => MarkerAt(line, k)
    case None => None
  }

  predicate HasMarker(line: string) {
    SearchMarker(line).Some?
  }

  /** Index of the last line satisfying `has`: a reversed search stops there. */
  function NearestLine(ls: seq<string>, has: string -> bool): (k: Option<nat>)
    ensures k.Some? ==> k.value < |ls| && has(ls[k.value])
    ensures k.Some? ==> forall j :: k.value < j < |ls| ==> !has(ls[j])
    ensures k.None? ==> forall i :: 0 <= i < |ls| ==> !has(ls[i])
  {
    if |ls| == 0 then None
    else if has(ls[|ls| - 1]) then Some(|ls| - 1)
    else
      var init := ls[..|ls| - 1];
      var k := NearestLine(init, has);
      assert forall i :: 0 <= i < |init| ==> init[i] == ls[i];
      k
  }

  /** `for line in reversed(context_lines)`: the marker of the nearest line that has one. */
  function SearchLinesReversed(ls: seq<string>): Option<string> {
    match NearestLine(ls, HasMarker)
    case Some(k) => SearchMarker(ls[k])
    case None => None
  }

  /** The line number (1-based) holding position `pos`. */
  function LineAt(t: string, pos: nat): nat
    requires pos <= |t|
  {
    CountChar(t[..pos], '\n') + 1
  }

  /** Turns one match into an environment record, with the marker window of up to 20 lines above it. */
  function ToEnvironment(t: string, m: Match): (env: Environment)
    requires ValidMatch(t, m)
  {
    var startLine := LineAt(t, m.start);
    var endLine := LineAt(t, m.end);
    var window := PySlice(Lines(t), Max(0, startLine - 21), startLine);
    Environment(m.env, m.title, t[m.bodyStart..m.bodyEnd], startLine, endLine, t[m.start..m.end],
                SearchLinesReversed(window))
  }

  /** The raw text of a match starts with its begin tag and ends with its end tag. */
  lemma RawTextTags(t: string, m: Match)
    requires ValidMatch(t, m)
    ensures StartsWith(t[m.start..m.end], BeginTag(m.env))
    ensures EndsWith(t[m.start..m.end], EndTag(m.env))
  {
    var raw := t[m.start..m.end];
    assert raw[..|BeginTag(m.env)|] == t[m.start..m.start + |BeginTag(m.env)|];
    assert raw[|raw| - |EndTag(m.env)|..] == t[m.bodyEnd..m.end];
  }

  /** `extract_environments`. */
  function ExtractEnvironments(content: string, envNames: seq<string>): (r: seq<Environment>)
    ensures |envNames| == 0 ==> r == []
    ensures forall i :: 0 <= i < |r| ==> r[i].env in envNames
    ensures forall i :: 0 <= i < |r| ==> StartsWith(r[i].rawText, BeginTag(r[i].env))
    ensures forall i :: 0 <= i < |r| ==> EndsWith(r[i].rawText, EndTag(r[i].env))
  {
    if |envNames| == 0 then []
    else
      var t := CleanContent(content);
      var ms := FindAll(t, envNames, 0);
      assert forall i :: 0 <= i < |ms| ==> ValidMatch(t, ms[i]);
      var r := seq(|ms|, i requires 0 <= i < |ms| => ToEnvironment(t, ms[i]));
      assert forall i :: 0 <= i < |ms| ==> StartsWith(r[i].rawText, BeginTag(r[i].env)) && EndsWith(r[i].rawText, EndTag(r[i].env)) by {
        forall i | 0 <= i < |ms| ensures StartsWith(r[i].rawText, BeginTag(r[i].env)) && EndsWith(r[i].rawText, EndTag(r[i].env)) {
          RawTextTags(t, ms[i]);
        }
      }
      r
  }
  /** Line numbers are 1-based, a block ends on or after the line it starts on, and blocks follow one another. */
  lemma ExtractLineNumbers(content: string, envNames: seq<string>)
    ensures var r := ExtractEnvironments(content, envNames);
      && (forall i :: 0 <= i < |r| ==> 1 <= r[i].startLine <= r[i].endLine <= |Lines(content)|)
      && (forall i, j :: 0 <= i < j < |r| ==> r[i].endLine <= r[j].startLine)
  {
    var r := ExtractEnvironments(content, envNames);
    if |envNames| > 0 {
      var t := CleanContent(content);
      var ms := FindAll(t, envNames, 0);
      CleanContentLines(content);
      LinesCount(t);
      assert t[..|t|] == t;
      forall i | 0 <= i < |r| ensures 1 <= r[i].startLine <= r[i].endLine <= |Lines(content)| {
        CountCharPrefixMonotone(t, ms[i].start, ms[i].end, '\n');
        CountCharPrefixMonotone(t, ms[i].end, |t|, '\n');
      }
      forall i, j | 0 <= i < j < |r| ensures r[i].endLine <= r[j].startLine {
        CountCharPrefixMonotone(t, ms[i].end, ms[j].start, '\n');
      }
    }
  }

  /** The line a block starts on is never a comment line of the input: commented-out blocks are not extracted. */
  lemma CommentedBlocksSkipped(content: string, envNames: seq<string>)
    ensures var r := ExtractEnvironments(content, envNames);
      forall i :: 0 <= i < |r| ==>
        r[i].startLine - 1 < |Lines(content)| && !IsCommentLine(Lines(content)[r[i].startLine - 1])
  {
    var r := ExtractEnvironments(content, envNames);
    if |envNames| > 0 {
      var t := CleanContent(content);
      var ms := FindAll(t, envNames, 0);
      CleanContentLines(content);
      forall i | 0 <= i < |r|
        ensures r[i].startLine - 1 < |Lines(content)| && !IsCommentLine(Lines(content)[r[i].startLine - 1])
      {
        var m := ms[i];
        assert t[m.start] == BeginTag(m.env)[0] == '\\';
        LineOfPosition(t, m.start);
        var c := CountChar(t[..m.start], '\n');
        assert Lines(t)[c] == BlankComments(Lines(content))[c];
      }
    }
  }

  /** The marker of one match: the nearest marker among the up to 20 lines above its begin line, and that line. */
  lemma MatchMarkerWindow(t: string, m: Match)
    requires ValidMatch(t, m)
    ensures var e := ToEnvironment(t, m);
      && e.startLine <= |Lines(t)|
      && e.guid == SearchLinesReversed(Lines(t)[Max(0, e.startLine - 21)..e.startLine])
  {
    LinesCount(t);
    assert t[..|t|] == t;
    CountCharPrefixMonotone(t, m.start, |t|, '\n');
  }

  /** The marker of a block is looked up in the blanked lines, nearest first, up to 20 lines above its begin line. */
  lemma MarkerWindow(content: string, envNames: seq<string>)
    ensures var r := ExtractEnvironments(content, envNames);
      forall i :: 0 <= i < |r| ==>
        && r[i].startLine <= |Lines(content)|
        && r[i].guid == SearchLinesReversed(
             BlankComments(Lines(content))[Max(0, r[i].startLine - 21)..r[i].startLine])
  {
    var r := ExtractEnvironments(content, envNames);
    if |envNames| > 0 {
      CleanContentLines(content);
      var t := CleanContent(content);
      var ms := FindAll(t, envNames, 0);
      forall i | 0 <= i < |r|
        ensures && r[i].startLine <= |Lines(content)|
                && r[i].guid == SearchLinesReversed(
                     BlankComments(Lines(content))[Max(0, r[i].startLine - 21)..r[i].startLine])
      {
        assert r[i] == ToEnvironment(t, ms[i]);
        MatchMarkerWindow(t, ms[i]);
      }
    }
  }

  /** The marker line that `inject_guid_comment` writes. */
  function MarkerLine(shortGuid: string): string {
    "% anki-tex-guid: " + shortGuid
  }

  /** A written marker line is recognised by the marker search ... */
  lemma MarkerLineFound(g: string)
    requires 8 <= |g| <= 40 && forall i :: 0 <= i < |g| ==> IsLowerHex(g[i])
    ensures SearchMarker(MarkerLine(g)) == Some(g)
  {
    MarkerAtLineStart(g);
    SearchFindsFirst(MarkerLine(g), g);
  }

  lemma MarkerAtLineStart(g: string)
    requires 8 <= |g| <= 40 && forall i :: 0 <= i < |g| ==> IsLowerHex(g[i])
    ensures MarkerAt(MarkerLine(g), 0) == Some(g)
  {
    var line := MarkerLine(g);
    MarkerLineSpan(g);
    assert line[0..] == line;
    TailOfJoin("% anki-tex-guid: ", g);
  }

  lemma TailOfJoin(p: string, g: string)
    ensures (p + g)[|p|..|p| + |g|] == g
  {
  }

  /** A marker at the very start of a line is the one the search returns. */
  lemma SearchFindsFirst(line: string, g: string)
    requires MarkerAt(line, 0) == Some(g)
    ensures SearchMarker(line) == Some(g)
  {
    assert MarkerStarts(line)(0);
    assert FirstWhere(0, |line|, MarkerStarts(line)) == Some(0);
  }

  /** The whole written marker line is one marker match, whose prefix is `% anki-tex-guid: `. */
  lemma MarkerLineSpan(g: string)
    requires 8 <= |g| <= 40 && forall i :: 0 <= i < |g| ==> IsLowerHex(g[i])
    ensures MarkerSpanAt(MarkerLine(g)) == Some(MarkerSpan(17, 17 + |g|))
  {
    var line := MarkerLine(g);
    MarkerLineParts(g);
    SkipOneSpace(line, 1);
    SkipOneSpace(line, 16);
    assert StartsWithCI(line[2..], "anki-tex-guid:") by {
      forall i | 0 <= i < 14 ensures LowerChar(line[2..][i]) == "anki-tex-guid:"[i] {
        assert line[2..][i] == line[2..16][i];
      }
    }
    HexRunAll(g);
    assert HexRun(line[17..]) == |g|;
    assert 1 + LeadingSpaces(line[1..]) == 2;
    assert 16 + LeadingSpaces(line[16..]) == 17;
  }

  lemma MarkerLineParts(g: string)
    ensures var line := MarkerLine(g);
      && |line| == 17 + |g|
      && line[0] == '%' && line[1] == ' ' && line[16] == ' '
      && line[2..16] == "anki-tex-guid:"
      && line[17..] == g
  {
  }

  /** One blank at `i` followed by a non-blank: the blank run at `i` has length one. */
  lemma SkipOneSpace(line: string, i: nat)
    requires i + 1 < |line| && line[i] == ' ' && !IsSpace(line[i + 1])
    ensures LeadingSpaces(line[i..]) == 1
  {
    assert line[i..][1..] == line[i + 1..];
  }

  lemma {:induction false} HexRunAll(g: string)
    requires forall i :: 0 <= i < |g| ==> IsLowerHex(g[i])
    ensures HexRun(g) == |g|
  {
    if |g| > 0 {
      HexRunAll(g[1..]);
    }
  }

  /** ... but it is a comment line, so extraction blanks it before searching. */
  lemma MarkerLineIsComment(g: string)
    ensures IsCommentLine(MarkerLine(g))
    ensures BlankComments([MarkerLine(g)]) == [""]
  {
    assert MarkerLine(g)[0] == '%';
    assert LeadingSpaces(MarkerLine(g)) == 0;
    assert LStrip(MarkerLine(g)) == MarkerLine(g);
  }

  /** A window of blanked lines holds no marker when every marker sat on a comment line. */
  lemma BlankedWindowHasNoMarker(ls: seq<string>, lo: nat, hi: nat)
    requires lo <= hi <= |ls|
    requires forall i :: 0 <= i < |ls| ==> IsCommentLine(ls[i]) || !HasMarker(ls[i])
    ensures SearchLinesReversed(BlankComments(ls)[lo..hi]).None?
  {
    var b := BlankComments(ls);
    var w := b[lo..hi];
    assert !HasMarker("");
    forall k | 0 <= k < |w| ensures !HasMarker(w[k]) {
      assert w[k] == b[lo + k];
    }
  }

  /**
   * When markers occur only on comment lines (the only place
   * `inject_guid_comment` puts them), no block ever gets an identity marker.
   */
  lemma OwnLineMarkersNeverFound(content: string, envNames: seq<string>)
    requires forall i :: 0 <= i < |Lines(content)| ==> IsCommentLine(Lines(content)[i]) || !HasMarker(Lines(content)[i])
    ensures forall e :: e in ExtractEnvironments(content, envNames) ==> e.guid.None?
  {
    var r := ExtractEnvironments(content, envNames);
    MarkerWindow(content, envNames);
    forall i | 0 <= i < |r| ensures r[i].guid.None? {
      BlankedWindowHasNoMarker(Lines(content), Max(0, r[i].startLine - 21), r[i].startLine);
    }
  }

  /** With no `\end{env}` for any requested name, nothing is matched from `from` on. */
  lemma {:induction false} UnterminatedYieldsNothing(t: string, envs: seq<string>, from: nat)
    requires forall i, k :: 0 <= i < |envs| && 0 <= k ==> !OccursAt(t, k, EndTag(envs[i]))
    ensures FindAll(t, envs, from) == []
    decreases |t| - from
  {
    if from < |t| {
      assert MatchAt(t, envs, from).None?;
      UnterminatedYieldsNothing(t, envs, from + 1);
    }
  }
  /**
   * `\begin{e}[x]b\end{e}` with no `]` in `x` and no earlier `\end{e}` in `b`
   * matches with title `x` and body `b`, verbatim.
   */
  lemma TitledBlock(e: string, x: string, b: string)
    requires ']' !in x
    requires forall j :: 0 <= j < |b| ==> !OccursAt(b + EndTag(e), j, EndTag(e))
    ensures var t := BeginTag(e) + "[" + x + "]" + b + EndTag(e);
      var q := |BeginTag(e)|;
      MatchEnvAt(t, e, 0) == Some(Match(e, Some(x), 0, q + 2 + |x|, q + 2 + |x| + |b|, |t|))
  {
    var t := BeginTag(e) + "[" + x + "]" + b + EndTag(e);
    TitledLayout(e, x, b, t);
    TitledBlockAt(e, x, b, t);
  }

  /** The same, from the layout of `t` alone. */
  lemma TitledBlockAt(e: string, x: string, b: string, t: string)
    requires ']' !in x
    requires forall j :: 0 <= j < |b| ==> !OccursAt(b + EndTag(e), j, EndTag(e))
    requires var q := |BeginTag(e)|; var j := q + 1 + |x|;
      && |t| == j + 1 + |b| + |EndTag(e)|
      && OccursAt(t, 0, BeginTag(e)) && t[q] == '[' && t[q + 1..j] == x && t[j] == ']'
      && t[j + 1..] == b + EndTag(e)
    ensures var q := |BeginTag(e)|;
      MatchEnvAt(t, e, 0) == Some(Match(e, Some(x), 0, q + 2 + |x|, q + 2 + |x| + |b|, |t|))
  {
    var q := |BeginTag(e)|;
    var j := q + 1 + |x|;
    var k := j + 1 + |b|;
    TitledCloseBracket(t, x, q);
    TitledEndTag(e, b, t, j);
    TitledMatch(t, e, j, k);
  }

  lemma TitledMatch(t: string, e: string, j: nat, k: nat)
    requires OccursAt(t, 0, BeginTag(e))
    requires |BeginTag(e)| < |t| && t[|BeginTag(e)|] == '['
    requires FindChar(t, ']', |BeginTag(e)| + 1) == Some(j)
    requires FindFrom(t, EndTag(e), j + 1) == Some(k)
    ensures MatchEnvAt(t, e, 0) == Some(Match(e, Some(t[|BeginTag(e)| + 1..j]), 0, j + 1, k, k + |EndTag(e)|))
  {
    TitledValue(t, e, 0, |BeginTag(e)|, j, k);
    TitledTaken(t, e, 0);
  }

  lemma TitledValue(t: string, e: string, p: nat, q: nat, j: nat, k: nat)
    requires q < |t| && t[q] == '['
    requires FindChar(t, ']', q + 1) == Some(j)
    requires FindFrom(t, EndTag(e), j + 1) == Some(k)
    ensures TitledMatchAt(t, e, p, q) == Some(Match(e, Some(t[q + 1..j]), p, j + 1, k, k + |EndTag(e)|))
  {
    TitledOpens(t, e, p, q, j);
    TitledBodyValue(t, e, p, q, j, k);
  }

  lemma TitledOpens(t: string, e: string, p: nat, q: nat, j: nat)
    requires q < |t| && t[q] == '['
    requires FindChar(t, ']', q + 1) == Some(j)
    ensures q + 1 <= j < |t| && TitledMatchAt(t, e, p, q) == TitledBodyAt(t, e, p, q, j)
  {
  }

  lemma TitledBodyValue(t: string, e: string, p: nat, q: nat, j: nat, k: nat)
    requires q + 1 <= j < |t|
    requires FindFrom(t, EndTag(e), j + 1) == Some(k)
    ensures TitledBodyAt(t, e, p, q, j) == Some(Match(e, Some(t[q + 1..j]), p, j + 1, k, k + |EndTag(e)|))
  {
  }

  /** When the title branch succeeds, it is the match. */
  lemma TitledTaken(t: string, e: string, p: nat)
    requires OccursAt(t, p, BeginTag(e))
    requires TitledMatchAt(t, e, p, p + |BeginTag(e)|).Some?
    ensures MatchEnvAt(t, e, p) == TitledMatchAt(t, e, p, p + |BeginTag(e)|)
  {
  }

  lemma TitledLayout(e: string, x: string, b: string, t: string)
    requires t == BeginTag(e) + "[" + x + "]" + b + EndTag(e)
    ensures var q := |BeginTag(e)|; var j := q + 1 + |x|;
      && |t| == j + 1 + |b| + |EndTag(e)|
      && OccursAt(t, 0, BeginTag(e)) && t[q] == '[' && t[q + 1..j] == x && t[j] == ']'
      && t[j + 1..] == b + EndTag(e)
  {
  }

  lemma TitledCloseBracket(t: string, x: string, q: nat)
    requires ']' !in x
    requires q + 1 + |x| < |t| && t[q + 1..q + 1 + |x|] == x && t[q + 1 + |x|] == ']'
    ensures FindChar(t, ']', q + 1) == Some(q + 1 + |x|)
  {
    var j := q + 1 + |x|;
    forall i | q + 1 <= i < j ensures t[i] != ']' {
      assert t[i] == x[i - q - 1];
    }
    FindCharFirst(t, ']', q + 1, j);
  }

  lemma TitledEndTag(e: string, b: string, t: string, j: nat)
    requires j + 1 <= |t| && t[j + 1..] == b + EndTag(e)
    requires forall i :: 0 <= i < |b| ==> !OccursAt(b + EndTag(e), i, EndTag(e))
    ensures FindFrom(t, EndTag(e), j + 1) == Some(j + 1 + |b|)
  {
    var tail := t[j + 1..];
    var k := j + 1 + |b|;
    forall i | j + 1 <= i < k ensures !OccursAt(t, i, EndTag(e)) {
      if i + |EndTag(e)| <= |t| {
        assert t[i..i + |EndTag(e)|] == tail[i - j - 1..i - j - 1 + |EndTag(e)|];
        assert !OccursAt(tail, i - j - 1, EndTag(e));
      }
    }
    assert t[k..k + |EndTag(e)|] == tail[|b|..];
    FindFromFirst(t, EndTag(e), j + 1, k);
  }

  lemma {:induction false} FindCharFirst(t: string, c: char, from: nat, j: nat)
    requires from <= j < |t| && t[j] == c
    requires forall i :: from <= i < j ==> t[i] != c
    ensures FindChar(t, c, from) == Some(j)
    decreases j - from
  {
    if from < j {
      FindCharFirst(t, c, from + 1, j);
    }
  }

  lemma {:induction false} FindFromFirst(t: string, w: string, from: nat, k: nat)
    requires from <= k && OccursAt(t, k, w)
    requires forall i :: from <= i < k ==> !OccursAt(t, i, w)
    ensures FindFrom(t, w, from) == Some(k)
    decreases k - from
  {
    if from < k {
      FindFromFirst(t, w, from + 1, k);
    }
  }
}
