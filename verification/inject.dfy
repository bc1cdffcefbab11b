/**
 * `inject_guid_comment` (renforce/tex_parser.py:273-346) as a transform on the
 * lines of a file, without their line terminators. Reading and writing the
 * file are not modelled: the result carries the lines the file holds
 * afterwards and the flag the function returns.
 */
module TexInject {
  import opened Results
  import opened Text
  import opened Hashing
  import opened TexParser

  /** The lines on disk after the call, and the returned "modified" flag. */
  datatype Injection = Injection(lines: seq<string>, modified: bool)

  predicate IsDigit(c: char) { '0' <= c <= '9' }

  predicate IsOctDigit(c: char) { '0' <= c <= '7' }

  /** A parsed `re.sub` replacement template. */
  datatype Template =
    | GroupThen(lit: string)    // group 1, then literal text
    | LiteralOnly(lit: string)  // literal text only

  /** The replacement for a match whose group 1 is `prefix`. */
  function Fill(tpl: Template, prefix: string): string {
    match tpl
    case GroupThen(lit) => prefix + lit
    case LiteralOnly(lit) => lit
  }

  /**
   * How Python's template parser reads `rf'\1{short}'`: after `\1` it takes
   * one more digit into the group number, or two more octal digits as an
   * octal escape. A group number of 10 or more does not exist in the
   * two-group rewrite pattern.
   */
  function ParseRewriteTemplate(short: string): (r: Result<Template>)
    ensures |short| > 0 && !IsDigit(short[0]) ==> r == Ok(GroupThen(short))
    ensures |short| > 0 && IsDigit(short[0]) ==> r != Ok(GroupThen(short))
  {
    if |short| == 0 || !IsDigit(short[0]) then Ok(GroupThen(short))
    else if IsOctDigit(short[0]) && |short| >= 2 && IsOctDigit(short[1]) then
      var code := 64 + 8 * (short[0] as int - '0' as int) + (short[1] as int - '0' as int);
      Ok(LiteralOnly([code as char] + short[2..]))
    else Err("invalid group reference 1" + [short[0]])
  }

  /** `guid_comment_pattern.sub(template, line)`: every marker match, left to right, is replaced. */
  function SubMarkers(s: string, tpl: Template): string
    decreases |s|
  {
    if |s| == 0 then ""
    else
      match MarkerSpanAt(s)
      case Some(sp) => Fill(tpl, s[..sp.prefixLen]) + SubMarkers(s[sp.len..], tpl)
      case None => [s[0]] + SubMarkers(s[1..], tpl)
  }

  /** The corrected rewrite of one marker line: each marker keeps its prefix and gets `short` as its guid. */
  function RewriteLine(line: string, short: string): string {
    SubMarkers(line, GroupThen(short))
  }

  /** `inject_guid_comment` as written. */
  function InjectGuidCommentAsWritten(lines: seq<string>, lineNumber: int, fullGuid: string): (r: Result<Injection>)
    ensures r.Ok? ==> 1 <= lineNumber <= |lines|
    ensures 1 <= lineNumber <= |lines| ==>
      (r.Err? <==> NearestLine(lines[Max(0, lineNumber - 21)..lineNumber - 1], HasMarker).Some?
                   && ParseRewriteTemplate(ShortGuid(fullGuid)).Err?)
    ensures r.Ok? ==> |r.value.lines| == |lines| || |r.value.lines| == |lines| + 1
  {
    var short := ShortGuid(fullGuid);
    var t := lineNumber - 1;
    if t < 0 || t >= |lines| then Err("line out of range")
    else
      var start := Max(0, t - 20);
      match NearestLine(lines[start..t], HasMarker)
      case Some(i) =>
        (match ParseRewriteTemplate(short)
         case Err(e) => Err(e)
         case Ok(tpl) =>
           var newLine := SubMarkers(lines[start + i], tpl);
           Ok(Injection(lines, lines[start + i] != newLine)))
      case None =>
        Ok(Injection(lines[..t] + [MarkerLine(short)] + lines[t..], true))
  }

  /**
   * `inject_guid_comment` as evidently intended: the rewritten marker line is
   * saved, and the replacement keeps group 1 whatever the short guid starts
   * with (as `\g<1>` would).
   */
  function InjectGuidComment(lines: seq<string>, lineNumber: int, fullGuid: string): (r: Result<Injection>)
    ensures r.Err? <==> lineNumber < 1 || lineNumber > |lines|
  {
    var short := ShortGuid(fullGuid);
    var t := lineNumber - 1;
    if t < 0 || t >= |lines| then Err("line out of range")
    else
      var start := Max(0, t - 20);
      match NearestLine(lines[start..t], HasMarker)
      case Some(i) =>
        var newLine := RewriteLine(lines[start + i], short);
        Ok(Injection(lines[start + i := newLine], lines[start + i] != newLine))
      case None =>
        Ok(Injection(lines[..t] + [MarkerLine(short)] + lines[t..], true))
  }
  /** The marker search window of the begin line `lineNumber`: up to 20 lines above it. */
  function Window(lines: seq<string>, lineNumber: int): seq<string>
    requires 1 <= lineNumber <= |lines|
  {
    lines[Max(0, lineNumber - 21)..lineNumber - 1]
  }

  /**
   * With no marker in the window, exactly one marker line with the
   * 12-character short guid is inserted just above the begin line, and every
   * other line keeps its place relative to it.
   */
  lemma InjectInserts(lines: seq<string>, lineNumber: int, fullGuid: string)
    requires 1 <= lineNumber <= |lines|
    requires forall k :: 0 <= k < |Window(lines, lineNumber)| ==> !HasMarker(Window(lines, lineNumber)[k])
    ensures var r := InjectGuidComment(lines, lineNumber, fullGuid);
      && r.Ok? && r.value.modified
      && |r.value.lines| == |lines| + 1
      && r.value.lines[lineNumber - 1] == MarkerLine(ShortGuid(fullGuid))
      && r.value.lines[..lineNumber - 1] == lines[..lineNumber - 1]
      && r.value.lines[lineNumber..] == lines[lineNumber - 1..]
  {
    var t := lineNumber - 1;
    var w := Window(lines, lineNumber);
    assert NearestLine(w, HasMarker).None?;
    var out := lines[..t] + [MarkerLine(ShortGuid(fullGuid))] + lines[t..];
    assert InjectGuidComment(lines, lineNumber, fullGuid) == Ok(Injection(out, true));
    assert out[..t] == lines[..t];
    assert out[t + 1..] == lines[t..];
  }

  /**
   * With a marker in the window, only the nearest marker line (the last one
   * in the window) is rewritten; the number of lines does not change.
   */
  lemma InjectRewritesNearest(lines: seq<string>, lineNumber: int, fullGuid: string)
    requires 1 <= lineNumber <= |lines|
    requires exists k :: 0 <= k < |Window(lines, lineNumber)| && HasMarker(Window(lines, lineNumber)[k])
    ensures var r := InjectGuidComment(lines, lineNumber, fullGuid);
      r.Ok? && exists k :: RewrittenAt(lines, lineNumber, r.value.lines, k, ShortGuid(fullGuid))
  {
    var w := Window(lines, lineNumber);
    var k0 :| 0 <= k0 < |w| && HasMarker(w[k0]);
    NearestLineFinds(w, HasMarker, k0);
    NearestRewritten(lines, lineNumber, fullGuid);
  }

  lemma NearestRewritten(lines: seq<string>, lineNumber: int, fullGuid: string)
    requires 1 <= lineNumber <= |lines|
    requires NearestLine(Window(lines, lineNumber), HasMarker).Some?
    ensures var r := InjectGuidComment(lines, lineNumber, fullGuid);
      var k := Max(0, lineNumber - 21) + NearestLine(Window(lines, lineNumber), HasMarker).value;
      r.Ok? && RewrittenAt(lines, lineNumber, r.value.lines, k, ShortGuid(fullGuid))
  {
    NearestLineInWindow(lines, Max(0, lineNumber - 21), lineNumber - 1, HasMarker);
    InjectRewriteShape(lines, lineNumber, fullGuid);
  }

  /** The nearest line of a window `lines[lo..hi]`, as an index into `lines`. */
  lemma NearestLineInWindow(lines: seq<string>, lo: nat, hi: nat, has: string -> bool)
    requires lo <= hi <= |lines|
    requires NearestLine(lines[lo..hi], has).Some?
    ensures var k := lo + NearestLine(lines[lo..hi], has).value;
      && lo <= k < hi && has(lines[k])
      && forall j :: k < j < hi ==> !has(lines[j])
  {
    var w := lines[lo..hi];
    var k := lo + NearestLine(w, has).value;
    assert w[k - lo] == lines[k];
    forall j | k < j < hi ensures !has(lines[j]) {
      assert lines[j] == w[j - lo];
    }
  }

  /** `k` is the nearest marker line above the begin line, and `out` is `lines` with only line `k` rewritten. */
  predicate RewrittenAt(lines: seq<string>, lineNumber: int, out: seq<string>, k: int, short: string) {
    && Max(0, lineNumber - 21) <= k < lineNumber - 1 && k < |lines|
    && HasMarker(lines[k])
    && (forall j :: k < j < lineNumber - 1 && j < |lines| ==> !HasMarker(lines[j]))
    && |out| == |lines|
    && (forall j :: 0 <= j < |lines| && j != k ==> out[j] == lines[j])
    && out[k] == RewriteLine(lines[k], short)
  }

  lemma InjectRewriteShape(lines: seq<string>, lineNumber: int, fullGuid: string)
    requires 1 <= lineNumber <= |lines|
    requires NearestLine(Window(lines, lineNumber), HasMarker).Some?
    ensures var k := Max(0, lineNumber - 21) + NearestLine(Window(lines, lineNumber), HasMarker).value;
      var newLine := RewriteLine(lines[k], ShortGuid(fullGuid));
      InjectGuidComment(lines, lineNumber, fullGuid) == Ok(Injection(lines[k := newLine], lines[k] != newLine))
  {
  }

  /** A window with some marker line has a nearest one. */
  lemma NearestLineFinds(ls: seq<string>, has: string -> bool, k: nat)
    requires k < |ls| && has(ls[k])
    ensures NearestLine(ls, has).Some?
  {
  }

  /** One step of the rewrite at a marker match. */
  lemma SubMarkersAtSpan(s: string, tpl: Template, sp: MarkerSpan)
    requires MarkerSpanAt(s) == Some(sp)
    ensures SubMarkers(s, tpl) == Fill(tpl, s[..sp.prefixLen]) + SubMarkers(s[sp.len..], tpl)
  {
  }

  /** Rewriting a written marker line keeps its prefix and puts the new short guid in place of the old one. */
  lemma RewriteMarkerLine(g: string, short: string)
    requires 8 <= |g| <= 40 && forall i :: 0 <= i < |g| ==> IsLowerHex(g[i])
    ensures RewriteLine(MarkerLine(g), short) == MarkerLine(short)
  {
    var line := MarkerLine(g);
    MarkerLineSpan(g);
    SubMarkersAtSpan(line, GroupThen(short), MarkerSpan(17, 17 + |g|));
    assert line[17 + |g|..] == "";
    assert line[..17] == "% anki-tex-guid: ";
  }

  /** Finding, as written: when the window has a marker, the file is left as it was, whatever flag is returned. */
  lemma AsWrittenRewriteNotSaved(lines: seq<string>, lineNumber: int, fullGuid: string)
    requires 1 <= lineNumber <= |lines|
    requires NearestLine(Window(lines, lineNumber), HasMarker).Some?
    ensures var r := InjectGuidCommentAsWritten(lines, lineNumber, fullGuid);
      r.Ok? ==> r.value.lines == lines
  {
  }

  /**
   * Both versions once the window has a marker and the template keeps group 1:
   * the same flag is returned, but only the corrected version changes the line.
   */
  lemma RewriteBranches(lines: seq<string>, lineNumber: int, fullGuid: string)
    requires 1 <= lineNumber <= |lines|
    requires NearestLine(Window(lines, lineNumber), HasMarker).Some?
    requires |ShortGuid(fullGuid)| > 0 && !IsDigit(ShortGuid(fullGuid)[0])
    ensures var k := Max(0, lineNumber - 21) + NearestLine(Window(lines, lineNumber), HasMarker).value;
      var newLine := RewriteLine(lines[k], ShortGuid(fullGuid));
      && InjectGuidCommentAsWritten(lines, lineNumber, fullGuid) == Ok(Injection(lines, lines[k] != newLine))
      && InjectGuidComment(lines, lineNumber, fullGuid) == Ok(Injection(lines[k := newLine], lines[k] != newLine))
  {
    InjectRewriteShape(lines, lineNumber, fullGuid);
  }

  /**
   * Finding: a written marker line just above the begin line, and a new short
   * guid. The call returns "modified", yet the file keeps the old marker;
   * the corrected call writes the new marker.
   */
  lemma RewriteNotSaved(g: string, fullGuid: string, x: string)
    requires 8 <= |g| <= 40 && forall i :: 0 <= i < |g| ==> IsLowerHex(g[i])
    requires |fullGuid| == 12 && !IsDigit(fullGuid[0]) && fullGuid != g
    ensures InjectGuidCommentAsWritten([MarkerLine(g), x], 2, fullGuid) == Ok(Injection([MarkerLine(g), x], true))
    ensures InjectGuidComment([MarkerLine(g), x], 2, fullGuid) == Ok(Injection([MarkerLine(fullGuid), x], true))
  {
    var lines := [MarkerLine(g), x];
    MarkerAbove(g, x);
    assert ShortGuid(fullGuid) == fullGuid;
    RewriteMarkerLine(g, fullGuid);
    assert MarkerLine(fullGuid)[17..] != MarkerLine(g)[17..];
    RewriteBranches(lines, 2, fullGuid);
    assert lines[0 := MarkerLine(fullGuid)] == [MarkerLine(fullGuid), x];
  }

  /**
   * Finding: the same layout with a short guid whose first character is `8`
   * or `9` (or a digit followed by a non-octal character): the template names
   * a group that does not exist and the call fails; the corrected call
   * writes the new marker.
   */
  lemma DigitGuidFails(g: string, fullGuid: string, x: string)
    requires 8 <= |g| <= 40 && forall i :: 0 <= i < |g| ==> IsLowerHex(g[i])
    requires |fullGuid| == 12 && IsDigit(fullGuid[0]) && !(IsOctDigit(fullGuid[0]) && IsOctDigit(fullGuid[1]))
    ensures InjectGuidCommentAsWritten([MarkerLine(g), x], 2, fullGuid).Err?
    ensures var r := InjectGuidComment([MarkerLine(g), x], 2, fullGuid);
      r.Ok? && r.value.lines == [MarkerLine(fullGuid), x]
  {
    var lines := [MarkerLine(g), x];
    MarkerAbove(g, x);
    assert ShortGuid(fullGuid) == fullGuid;
    assert ParseRewriteTemplate(fullGuid).Err?;
    AsWrittenTemplateFails(lines, 2, fullGuid);
    CorrectedRewritesAbove(g, fullGuid, x);
  }

  /** A written marker line right above the begin line is the nearest marker. */
  lemma MarkerAbove(g: string, x: string)
    requires 8 <= |g| <= 40 && forall i :: 0 <= i < |g| ==> IsLowerHex(g[i])
    ensures NearestLine(Window([MarkerLine(g), x], 2), HasMarker) == Some(0)
  {
    MarkerLineFound(g);
    assert Window([MarkerLine(g), x], 2) == [MarkerLine(g)];
  }

  /** The corrected call on that layout writes the new marker in place of the old one. */
  lemma CorrectedRewritesAbove(g: string, fullGuid: string, x: string)
    requires 8 <= |g| <= 40 && forall i :: 0 <= i < |g| ==> IsLowerHex(g[i])
    requires |fullGuid| == 12
    ensures var r := InjectGuidComment([MarkerLine(g), x], 2, fullGuid);
      r.Ok? && r.value.lines == [MarkerLine(fullGuid), x]
  {
    var lines := [MarkerLine(g), x];
    MarkerAbove(g, x);
    assert ShortGuid(fullGuid) == fullGuid;
    RewriteMarkerLine(g, fullGuid);
    InjectRewriteShape(lines, 2, fullGuid);
    assert lines[0 := MarkerLine(fullGuid)] == [MarkerLine(fullGuid), x];
  }

  lemma AsWrittenTemplateFails(lines: seq<string>, lineNumber: int, fullGuid: string)
    requires 1 <= lineNumber <= |lines|
    requires NearestLine(Window(lines, lineNumber), HasMarker).Some?
    requires ParseRewriteTemplate(ShortGuid(fullGuid)).Err?
    ensures InjectGuidCommentAsWritten(lines, lineNumber, fullGuid).Err?
  {
  }

  /** Concrete instances of the two findings above. */
  lemma InjectFindingExamples()
    ensures InjectGuidCommentAsWritten([MarkerLine("aaaaaaaa"), "x"], 2, "bbbbbbbbbbbb")
         == Ok(Injection([MarkerLine("aaaaaaaa"), "x"], true))
    ensures InjectGuidCommentAsWritten([MarkerLine("aaaaaaaa"), "x"], 2, "9bbbbbbbbbbb").Err?
  {
    RewriteNotSaved("aaaaaaaa", "bbbbbbbbbbbb", "x");
    DigitGuidFails("aaaaaaaa", "9bbbbbbbbbbb", "x");
  }

  /**
   * Finding: a short guid starting with two octal digits makes `\1` plus
   * those digits an octal escape (`\112` is `J`), and the marker line would
   * lose its whole prefix and the old marker's place.
   */
  lemma OctalGuidExample(g: string, rest: string)
    requires 8 <= |g| <= 40 && forall i :: 0 <= i < |g| ==> IsLowerHex(g[i])
    ensures ParseRewriteTemplate("12" + rest) == Ok(LiteralOnly("J" + rest))
    ensures SubMarkers(MarkerLine(g), LiteralOnly("J" + rest)) == "J" + rest
  {
    var short := "12" + rest;
    assert short[0] == '1' && short[1] == '2' && short[2..] == rest;
    var code := 64 + 8 * (short[0] as int - '0' as int) + (short[1] as int - '0' as int);
    assert code == 74;
    assert [code as char] == "J";
    var line := MarkerLine(g);
    MarkerLineSpan(g);
    SubMarkersAtSpan(line, LiteralOnly("J" + rest), MarkerSpan(17, 17 + |g|));
    assert line[17 + |g|..] == "";
  }

  /** The short guid of an identity shaped like a digest is 12 lower-case hex characters. */
  lemma ShortGuidOfDigest(fullGuid: string)
    requires IsHexDigest(fullGuid)
    ensures var g := ShortGuid(fullGuid);
      |g| == 12 && forall i :: 0 <= i < |g| ==> IsLowerHex(g[i])
  {
    var g := ShortGuid(fullGuid);
    forall i | 0 <= i < |g| ensures IsLowerHex(g[i]) {
      assert g[i] == fullGuid[i];
    }
  }

  /** A call that adds a line has inserted the marker just above the begin line. */
  lemma GrowingCallInserted(lines: seq<string>, lineNumber: int, fullGuid: string)
    requires InjectGuidComment(lines, lineNumber, fullGuid).Ok?
    requires |InjectGuidComment(lines, lineNumber, fullGuid).value.lines| == |lines| + 1
    ensures 1 <= lineNumber <= |lines|
    ensures InjectGuidComment(lines, lineNumber, fullGuid).value.lines
      == lines[..lineNumber - 1] + [MarkerLine(ShortGuid(fullGuid))] + lines[lineNumber - 1..]
  {
    var t := lineNumber - 1;
    if NearestLine(lines[Max(0, t - 20)..t], HasMarker).Some? {
      assert false;
    }
  }

  /** A marker line at `t` is the nearest one in the window of the line after it. */
  lemma MarkerIsNearest(once: seq<string>, t: nat, g: string)
    requires t < |once| && once[t] == MarkerLine(g)
    requires 8 <= |g| <= 40 && forall i :: 0 <= i < |g| ==> IsLowerHex(g[i])
    ensures NearestLine(once[Max(0, t + 1 - 20)..t + 1], HasMarker) == Some(t - Max(0, t + 1 - 20))
  {
    MarkerLineFound(g);
    var w := once[Max(0, t + 1 - 20)..t + 1];
    assert w[|w| - 1] == once[t];
  }

  lemma UpdateSame(lines: seq<string>, k: nat, v: string)
    requires k < |lines| && v == lines[k]
    ensures lines[k := v] == lines
  {
  }

  /** When the nearest marker line already carries the short guid, the call changes nothing. */
  lemma InjectKeepsCurrentMarker(lines: seq<string>, lineNumber: int, fullGuid: string)
    requires 1 <= lineNumber <= |lines|
    requires NearestLine(Window(lines, lineNumber), HasMarker).Some?
    requires var k := Max(0, lineNumber - 21) + NearestLine(Window(lines, lineNumber), HasMarker).value;
      k < |lines| && RewriteLine(lines[k], ShortGuid(fullGuid)) == lines[k]
    ensures InjectGuidComment(lines, lineNumber, fullGuid) == Ok(Injection(lines, false))
  {
    var k := Max(0, lineNumber - 21) + NearestLine(Window(lines, lineNumber), HasMarker).value;
    UpdateSame(lines, k, RewriteLine(lines[k], ShortGuid(fullGuid)));
    InjectRewriteShape(lines, lineNumber, fullGuid);
  }

  /**
   * Calling again with the begin line shifted by the inserted line finds the
   * marker just written and changes nothing.
   */
  lemma RepeatCallChangesNothing(lines: seq<string>, lineNumber: int, fullGuid: string)
    requires 1 <= lineNumber <= |lines|
    requires IsHexDigest(fullGuid)
    requires InjectGuidComment(lines, lineNumber, fullGuid).Ok?
    requires |InjectGuidComment(lines, lineNumber, fullGuid).value.lines| == |lines| + 1
    ensures var once := InjectGuidComment(lines, lineNumber, fullGuid).value.lines;
      InjectGuidComment(once, lineNumber + 1, fullGuid) == Ok(Injection(once, false))
  {
    GrowingCallInserted(lines, lineNumber, fullGuid);
    RepeatOnInserted(lines, lineNumber, fullGuid);
  }

  /** The call on a file whose begin line has the marker for `fullGuid` just above it. */
  lemma RepeatOnInserted(lines: seq<string>, lineNumber: int, fullGuid: string)
    requires 1 <= lineNumber <= |lines|
    requires IsHexDigest(fullGuid)
    ensures var once := lines[..lineNumber - 1] + [MarkerLine(ShortGuid(fullGuid))] + lines[lineNumber - 1..];
      InjectGuidComment(once, lineNumber + 1, fullGuid) == Ok(Injection(once, false))
  {
    var g := ShortGuid(fullGuid);
    ShortGuidOfDigest(fullGuid);
    var t := lineNumber - 1;
    var once := lines[..t] + [MarkerLine(g)] + lines[t..];
    assert once[t] == MarkerLine(g);
    MarkerIsNearest(once, t, g);
    RewriteMarkerLine(g, g);
    assert Window(once, lineNumber + 1) == once[Max(0, t + 1 - 20)..t + 1];
    InjectKeepsCurrentMarker(once, lineNumber + 1, fullGuid);
  }

  /**
   * Without a marker in the window the two versions agree: the only path the
   * indexing run takes (it calls the function only after its own marker
   * search found nothing) inserts the marker as the corrected version does.
   */
  lemma AsWrittenAgreesWithoutMarker(lines: seq<string>, lineNumber: int, fullGuid: string)
    requires 1 <= lineNumber <= |lines|
    requires forall k :: 0 <= k < |Window(lines, lineNumber)| ==> !HasMarker(Window(lines, lineNumber)[k])
    ensures InjectGuidCommentAsWritten(lines, lineNumber, fullGuid) == InjectGuidComment(lines, lineNumber, fullGuid)
    ensures var r := InjectGuidCommentAsWritten(lines, lineNumber, fullGuid);
      && r.Ok? && r.value.modified
      && r.value.lines == lines[..lineNumber - 1] + [MarkerLine(ShortGuid(fullGuid))] + lines[lineNumber - 1..]
  {
    assert NearestLine(Window(lines, lineNumber), HasMarker).None?;
  }

  /** An as-written call that adds a line has inserted the marker just above the begin line. */
  lemma GrowingCallInsertedAsWritten(lines: seq<string>, lineNumber: int, fullGuid: string)
    requires InjectGuidCommentAsWritten(lines, lineNumber, fullGuid).Ok?
    requires |InjectGuidCommentAsWritten(lines, lineNumber, fullGuid).value.lines| == |lines| + 1
    ensures 1 <= lineNumber <= |lines|
    ensures InjectGuidCommentAsWritten(lines, lineNumber, fullGuid).value.lines
      == lines[..lineNumber - 1] + [MarkerLine(ShortGuid(fullGuid))] + lines[lineNumber - 1..]
  {
    var t := lineNumber - 1;
    if NearestLine(lines[Max(0, t - 20)..t], HasMarker).Some? {
      assert false;
    }
  }

  /** Any template applied to a written marker line replaces the whole line by its filling of the prefix. */
  lemma SubMarkerLine(g: string, tpl: Template)
    requires 8 <= |g| <= 40 && forall i :: 0 <= i < |g| ==> IsLowerHex(g[i])
    ensures SubMarkers(MarkerLine(g), tpl) == Fill(tpl, "% anki-tex-guid: ")
  {
    var line := MarkerLine(g);
    MarkerLineSpan(g);
    SubMarkersAtSpan(line, tpl, MarkerSpan(17, 17 + |g|));
    assert line[17 + |g|..] == "";
    assert line[..17] == "% anki-tex-guid: ";
  }

  /**
   * The repeat call of the function as written, after a call that inserted
   * the marker. The file is left as it is; the call fails exactly when the
   * template does not parse; when the short guid does not start with a digit
   * it reports no change; when it starts with two octal digits the template
   * is a bare octal literal, and the call reports a change it does not save.
   */
  lemma RepeatCallAsWritten(lines: seq<string>, lineNumber: int, fullGuid: string)
    requires IsHexDigest(fullGuid)
    requires InjectGuidCommentAsWritten(lines, lineNumber, fullGuid).Ok?
    requires |InjectGuidCommentAsWritten(lines, lineNumber, fullGuid).value.lines| == |lines| + 1
    ensures var once := InjectGuidCommentAsWritten(lines, lineNumber, fullGuid).value.lines;
      var r := InjectGuidCommentAsWritten(once, lineNumber + 1, fullGuid);
      var g := ShortGuid(fullGuid);
      && (r.Err? <==> ParseRewriteTemplate(g).Err?)
      && (r.Ok? ==> r.value.lines == once)
      && (!IsDigit(g[0]) ==> r == Ok(Injection(once, false)))
      && (IsDigit(g[0]) && r.Ok? ==> r.value.modified)
  {
    GrowingCallInsertedAsWritten(lines, lineNumber, fullGuid);
    RepeatOnInsertedAsWritten(lines, lineNumber, fullGuid);
  }

  lemma RepeatOnInsertedAsWritten(lines: seq<string>, lineNumber: int, fullGuid: string)
    requires 1 <= lineNumber <= |lines|
    requires IsHexDigest(fullGuid)
    ensures var g := ShortGuid(fullGuid);
      var once := lines[..lineNumber - 1] + [MarkerLine(g)] + lines[lineNumber - 1..];
      var r := InjectGuidCommentAsWritten(once, lineNumber + 1, fullGuid);
      && (r.Err? <==> ParseRewriteTemplate(g).Err?)
      && (r.Ok? ==> r.value.lines == once)
      && (!IsDigit(g[0]) ==> r == Ok(Injection(once, false)))
      && (IsDigit(g[0]) && r.Ok? ==> r.value.modified)
  {
    var g := ShortGuid(fullGuid);
    ShortGuidOfDigest(fullGuid);
    var t := lineNumber - 1;
    var once := lines[..t] + [MarkerLine(g)] + lines[t..];
    assert once[t] == MarkerLine(g);
    MarkerIsNearest(once, t, g);
    RepeatShape(once, t, fullGuid);
    TemplateOnMarkerLine(g);
  }

  /** What each parse of the template does to the marker line of the same short guid. */
  lemma TemplateOnMarkerLine(g: string)
    requires |g| == 12 && forall i :: 0 <= i < |g| ==> IsLowerHex(g[i])
    ensures match ParseRewriteTemplate(g)
      case Err(_) => true
      case Ok(tpl) =>
        && (!IsDigit(g[0]) ==> SubMarkers(MarkerLine(g), tpl) == MarkerLine(g))
        && (IsDigit(g[0]) ==> SubMarkers(MarkerLine(g), tpl) != MarkerLine(g))
  {
    match ParseRewriteTemplate(g)
    case Err(_) =>
    case Ok(tpl) =>
      SubMarkerLine(g, tpl);
      if IsDigit(g[0]) {
        assert tpl.LiteralOnly? && |tpl.lit| == 11;
        assert |MarkerLine(g)| == 29;
      }
  }

  /** The as-written call whose nearest marker line is `once[t]`, the line just above the begin line. */
  lemma RepeatShape(once: seq<string>, t: nat, fullGuid: string)
    requires t + 1 < |once|
    requires NearestLine(once[Max(0, t + 1 - 20)..t + 1], HasMarker) == Some(t - Max(0, t + 1 - 20))
    ensures InjectGuidCommentAsWritten(once, t + 2, fullGuid) ==
      match ParseRewriteTemplate(ShortGuid(fullGuid))
      case Err(e) => Err(e)
      case Ok(tpl) => Ok(Injection(once, once[t] != SubMarkers(once[t], tpl)))
  {
  }
}
