/**
 * `normalize_tex` (renforce/tex_parser.py:128-176).
 *
 * The Python code swaps every math span for a placeholder string
 * `__MATH_BLOCK_<i>__`, collapses whitespace in what is left, and swaps the
 * spans back in. The model keeps a placeholder as a token `Ph(i)` instead of
 * its text; the placeholder text only appears when a placeholder survives
 * restoration.
 */
module TexNormalize {
  import opened Results
  import opened Text

  datatype Tok = Ch(c: char) | Ph(index: nat)

  function Chars(s: string): (ts: seq<Tok>)
    ensures |ts| == |s|
    ensures forall i :: 0 <= i < |s| ==> ts[i] == Ch(s[i])
  {
    if |s| == 0 then [] else [Ch(s[0])] + Chars(s[1..])
  }

  /** The text the Python code puts in place of the `i`-th math span. */
  function PlaceholderText(i: nat): string {
    "__MATH_BLOCK_" + NatToString(i) + "__"
  }

  /** First `k >= from` with `ts[k], ts[k+1]` equal to the characters `a, b`. */
  function FindPair(ts: seq<Tok>, a: char, b: char, from: nat): (r: Option<nat>)
    decreases |ts| - from
    ensures r.Some? ==> from <= r.value && r.value + 1 < |ts|
    ensures r.Some? ==> ts[r.value] == Ch(a) && ts[r.value + 1] == Ch(b)
  {
    if from + 1 >= |ts| then None
    else if ts[from] == Ch(a) && ts[from + 1] == Ch(b) then Some(from)
    else FindPair(ts, a, b, from + 1)
  }

  /** First `k >= from` with `ts[k]` equal to the character `a`. */
  function FindTok(ts: seq<Tok>, a: char, from: nat): (r: Option<nat>)
    decreases |ts| - from
    ensures r.Some? ==> from <= r.value < |ts| && ts[r.value] == Ch(a)
    ensures r.Some? ==> forall k :: from <= k < r.value ==> ts[k] != Ch(a)
  {
    if from >= |ts| then None
    else if ts[from] == Ch(a) then Some(from)
    else FindTok(ts, a, from + 1)
  }

  /** The three protected span shapes, in the order the Python code protects them. */
  datatype MathKind =
    | DisplayBracket   // r"\\\[.*?\\\]" with DOTALL
    | DisplayDollars   // r"\$\$.*?\$\$" with DOTALL
    | InlineDollar     // r"\$[^\$]+?\$"

  /** Length of the shortest span of kind `k` at the start of `ts`, or 0 when none starts there. */
  function SpanLen(k: MathKind, ts: seq<Tok>): (n: nat)
    ensures n <= |ts|
    ensures n > 0 ==> n >= 2
    ensures n > 0 ==> ts[0] == Ch('\\') || ts[0] == Ch('$')
    ensures n > 0 ==> ts[n - 1] == Ch(']') || ts[n - 1] == Ch('$')
  {
    match k
    case DisplayBracket =>
      if |ts| >= 2 && ts[0] == Ch('\\') && ts[1] == Ch('[') then
        (match FindPair(ts, '\\', ']', 2) case Some(q) => q + 2 case None => 0)
      else 0
    case DisplayDollars =>
      if |ts| >= 2 && ts[0] == Ch('$') && ts[1] == Ch('$') then
        (match FindPair(ts, '$', '$', 2) case Some(q) => q + 2 case None => 0)
      else 0
    case InlineDollar =>
      if |ts| >= 1 && ts[0] == Ch('$') then
        (match FindTok(ts, '$', 1) case Some(q) => if q >= 2 then q + 1 else 0 case None => 0)
      else 0
  }

  /** Text with spans swapped out, and the spans in the order they were taken. */
  datatype Protected = Protected(toks: seq<Tok>, blocks: seq<seq<Tok>>)

  /** One `re.sub(pattern, save_display_math, content)` pass. */
  function ProtectPass(k: MathKind, ts: seq<Tok>, blocks: seq<seq<Tok>>): (r: Protected)
    decreases |ts|
    ensures |blocks| <= |r.blocks| && r.blocks[..|blocks|] == blocks
  {
    if |ts| == 0 then Protected([], blocks)
    else
      var n := SpanLen(k, ts);
      if n > 0 then
        var rest := ProtectPass(k, ts[n..], blocks + [ts[..n]]);
        assert rest.blocks[..|blocks|] == (rest.blocks[..|blocks| + 1])[..|blocks|];
        Protected([Ph(|blocks|)] + rest.toks, rest.blocks)
      else
        var rest := ProtectPass(k, ts[1..], blocks);
        Protected([ts[0]] + rest.toks, rest.blocks)
  }

  /** Step 2 of `normalize_tex`: display brackets, then double dollars, then inline dollars. */
  function ProtectMath(s: string): Protected {
    var p1 := ProtectPass(DisplayBracket, Chars(s), []);
    var p2 := ProtectPass(DisplayDollars, p1.toks, p1.blocks);
    ProtectPass(InlineDollar, p2.toks, p2.blocks)
  }

  predicate IsBlankTok(t: Tok) {
    t == Ch(' ') || t == Ch('\t')
  }

  function BlankRun(ts: seq<Tok>): (n: nat)
    ensures n <= |ts|
    ensures n < |ts| ==> !IsBlankTok(ts[n])
  {
    if |ts| > 0 && IsBlankTok(ts[0]) then 1 + BlankRun(ts[1..]) else 0
  }

  function NewlineRun(ts: seq<Tok>): (n: nat)
    ensures n <= |ts|
    ensures n < |ts| ==> ts[n] != Ch('\n')
  {
    if |ts| > 0 && ts[0] == Ch('\n') then 1 + NewlineRun(ts[1..]) else 0
  }

  /** No two neighbouring tokens are both a space or a tab. */
  predicate NoBlankRuns(ts: seq<Tok>) {
    forall i :: 0 <= i < |ts| - 1 ==> !(IsBlankTok(ts[i]) && IsBlankTok(ts[i + 1]))
  }

  /** No three neighbouring tokens are all newlines. */
  predicate NoTripleNewlines(ts: seq<Tok>) {
    forall i :: 0 <= i < |ts| - 2 ==> !(ts[i] == Ch('\n') && ts[i + 1] == Ch('\n') && ts[i + 2] == Ch('\n'))
  }

  /** The placeholders of `ts`, in order. */
  function Placeholders(ts: seq<Tok>): seq<nat> {
    if |ts| == 0 then []
    else (if ts[0].Ph? then [ts[0].index] else []) + Placeholders(ts[1..])
  }

  lemma {:induction false} PlaceholdersAppend(a: seq<Tok>, b: seq<Tok>)
    ensures Placeholders(a + b) == Placeholders(a) + Placeholders(b)
  {
    if |a| == 0 {
      assert a + b == b;
    } else {
      assert (a + b)[0] == a[0];
      assert (a + b)[1..] == a[1..] + b;
      PlaceholdersAppend(a[1..], b);
    }
  }

  lemma {:induction false} PlaceholdersOfBlanks(ts: seq<Tok>, n: nat)
    requires n <= |ts|
    requires forall i :: 0 <= i < n ==> ts[i].Ch?
    ensures Placeholders(ts[..n]) == []
  {
    if n > 0 {
      assert ts[..n][1..] == ts[1..][..n - 1];
      PlaceholdersOfBlanks(ts[1..], n - 1);
    }
  }

  /** `re.sub(r"[ \t]+", " ", content)`. */
  function CollapseBlanks(ts: seq<Tok>): (r: seq<Tok>)
    decreases |ts|
    ensures |r| == 0 <==> |ts| == 0
    ensures |ts| > 0 && !IsBlankTok(ts[0]) ==> r[0] == ts[0]
    ensures |ts| > 0 && IsBlankTok(ts[0]) ==> r[0] == Ch(' ')
  {
    if |ts| == 0 then []
    else if IsBlankTok(ts[0]) then [Ch(' ')] + CollapseBlanks(ts[BlankRun(ts)..])
    else [ts[0]] + CollapseBlanks(ts[1..])
  }

  /** `re.sub(r"\n\n+", "\n\n", content)`. */
  function CollapseNewlines(ts: seq<Tok>): (r: seq<Tok>)
    decreases |ts|
    ensures |r| == 0 <==> |ts| == 0
    ensures |ts| > 0 ==> r[0] == ts[0]
  {
    if |ts| == 0 then []
    else if |ts| >= 2 && ts[0] == Ch('\n') && ts[1] == Ch('\n') then
      [Ch('\n'), Ch('\n')] + CollapseNewlines(ts[NewlineRun(ts)..])
    else [ts[0]] + CollapseNewlines(ts[1..])
  }

  /** Step 3 of `normalize_tex`. */
  function CollapseWhitespace(ts: seq<Tok>): seq<Tok> {
    CollapseNewlines(CollapseBlanks(ts))
  }

  lemma {:induction false} CollapseBlanksFacts(ts: seq<Tok>)
    ensures NoBlankRuns(CollapseBlanks(ts))
    ensures Placeholders(CollapseBlanks(ts)) == Placeholders(ts)
    decreases |ts|
  {
    if |ts| > 0 {
      if IsBlankTok(ts[0]) {
        var n := BlankRun(ts);
        assert forall i :: 0 <= i < n ==> IsBlankTok(ts[i]) by {
          BlankRunAll(ts);
        }
        CollapseBlanksFacts(ts[n..]);
        PlaceholdersOfBlanks(ts, n);
        assert ts == ts[..n] + ts[n..];
        PlaceholdersAppend(ts[..n], ts[n..]);
        PlaceholdersAppend([Ch(' ')], CollapseBlanks(ts[n..]));
      } else {
        CollapseBlanksFacts(ts[1..]);
        assert ts == [ts[0]] + ts[1..];
        PlaceholdersAppend([ts[0]], ts[1..]);
        PlaceholdersAppend([ts[0]], CollapseBlanks(ts[1..]));
      }
    }
  }

  lemma {:induction false} BlankRunAll(ts: seq<Tok>)
    ensures forall i :: 0 <= i < BlankRun(ts) ==> IsBlankTok(ts[i])
  {
    if |ts| > 0 && IsBlankTok(ts[0]) {
      BlankRunAll(ts[1..]);
    }
  }

  lemma {:induction false} NewlineRunAll(ts: seq<Tok>)
    ensures forall i :: 0 <= i < NewlineRun(ts) ==> ts[i] == Ch('\n')
  {
    if |ts| > 0 && ts[0] == Ch('\n') {
      NewlineRunAll(ts[1..]);
    }
  }

  lemma {:induction false} CollapseNewlinesNoTriple(ts: seq<Tok>)
    ensures NoTripleNewlines(CollapseNewlines(ts))
    decreases |ts|
  {
    if |ts| > 0 {
      if |ts| >= 2 && ts[0] == Ch('\n') && ts[1] == Ch('\n') {
        var rest := ts[NewlineRun(ts)..];
        CollapseNewlinesNoTriple(rest);
        var r := CollapseNewlines(rest);
        assert |r| > 0 ==> r[0] != Ch('\n');
        var out := [Ch('\n'), Ch('\n')] + r;
        forall i | 0 <= i < |out| - 2
          ensures !(out[i] == Ch('\n') && out[i + 1] == Ch('\n') && out[i + 2] == Ch('\n'))
        {
          if i >= 2 {
            assert out[i] == r[i - 2] && out[i + 1] == r[i - 1] && out[i + 2] == r[i];
          } else {
            assert out[2] == r[0];
          }
        }
      } else {
        var rest := ts[1..];
        CollapseNewlinesNoTriple(rest);
        var r := CollapseNewlines(rest);
        var out := [ts[0]] + r;
        forall i | 0 <= i < |out| - 2
          ensures !(out[i] == Ch('\n') && out[i + 1] == Ch('\n') && out[i + 2] == Ch('\n'))
        {
          if i >= 1 {
            assert out[i] == r[i - 1] && out[i + 1] == r[i] && out[i + 2] == r[i + 1];
          } else {
            assert out[1] == r[0] == ts[1];
          }
        }
      }
    }
  }

  lemma {:induction false} CollapseNewlinesKeepsNoBlankRuns(ts: seq<Tok>)
    requires NoBlankRuns(ts)
    ensures NoBlankRuns(CollapseNewlines(ts))
    decreases |ts|
  {
    if |ts| > 0 {
      if |ts| >= 2 && ts[0] == Ch('\n') && ts[1] == Ch('\n') {
        var n := NewlineRun(ts);
        var rest := ts[n..];
        forall i | 0 <= i < |rest| - 1 ensures !(IsBlankTok(rest[i]) && IsBlankTok(rest[i + 1])) {
          assert rest[i] == ts[n + i] && rest[i + 1] == ts[n + i + 1];
        }
        CollapseNewlinesKeepsNoBlankRuns(rest);
        var r := CollapseNewlines(rest);
        var out := [Ch('\n'), Ch('\n')] + r;
        forall i | 0 <= i < |out| - 1 ensures !(IsBlankTok(out[i]) && IsBlankTok(out[i + 1])) {
          if i >= 2 {
            assert out[i] == r[i - 2] && out[i + 1] == r[i - 1];
          }
        }
      } else {
        var rest := ts[1..];
        forall i | 0 <= i < |rest| - 1 ensures !(IsBlankTok(rest[i]) && IsBlankTok(rest[i + 1])) {
          assert rest[i] == ts[i + 1] && rest[i + 1] == ts[i + 2];
        }
        CollapseNewlinesKeepsNoBlankRuns(rest);
        var r := CollapseNewlines(rest);
        var out := [ts[0]] + r;
        forall i | 0 <= i < |out| - 1 ensures !(IsBlankTok(out[i]) && IsBlankTok(out[i + 1])) {
          if i >= 1 {
            assert out[i] == r[i - 1] && out[i + 1] == r[i];
          } else {
            assert out[1] == r[0] == ts[1];
          }
        }
      }
    }
  }

  lemma {:induction false} CollapseNewlinesKeepsPlaceholders(ts: seq<Tok>)
    ensures Placeholders(CollapseNewlines(ts)) == Placeholders(ts)
    decreases |ts|
  {
    if |ts| > 0 {
      if |ts| >= 2 && ts[0] == Ch('\n') && ts[1] == Ch('\n') {
        var n := NewlineRun(ts);
        NewlineRunAll(ts);
        var rest := ts[n..];
        CollapseNewlinesKeepsPlaceholders(rest);
        PlaceholdersOfBlanks(ts, n);
        assert ts == ts[..n] + rest;
        PlaceholdersAppend(ts[..n], rest);
        PlaceholdersAppend([Ch('\n'), Ch('\n')], CollapseNewlines(rest));
        assert Placeholders([Ch('\n'), Ch('\n')]) == [] by {
          assert [Ch('\n'), Ch('\n')][1..] == [Ch('\n')];
          assert [Ch('\n')][1..] == [];
        }
      } else {
        var rest := ts[1..];
        CollapseNewlinesKeepsPlaceholders(rest);
        assert ts == [ts[0]] + rest;
        PlaceholdersAppend([ts[0]], rest);
        PlaceholdersAppend([ts[0]], CollapseNewlines(rest));
      }
    }
  }

  /**
   * After step 3, no space/tab run and no three newlines remain outside the
   * protected spans, and every placeholder is still there, in order.
   */
  lemma CollapseWhitespaceFacts(ts: seq<Tok>)
    ensures NoBlankRuns(CollapseWhitespace(ts))
    ensures NoTripleNewlines(CollapseWhitespace(ts))
    ensures Placeholders(CollapseWhitespace(ts)) == Placeholders(ts)
  {
    CollapseBlanksFacts(ts);
    CollapseNewlinesNoTriple(CollapseBlanks(ts));
    CollapseNewlinesKeepsNoBlankRuns(CollapseBlanks(ts));
    CollapseNewlinesKeepsPlaceholders(CollapseBlanks(ts));
  }

  /** Renders tokens as text, a placeholder as its placeholder text. */
  function Render(ts: seq<Tok>): string {
    if |ts| == 0 then ""
    else (match ts[0] case Ch(c) => [c] case Ph(i) => PlaceholderText(i)) + Render(ts[1..])
  }

  /**
   * Step 4 as written: `for i, block in enumerate(math_blocks):
   * content = content.replace(placeholder_i, block)`. Going up from 0, the
   * placeholders a span carries inside it are put back into the text only
   * after their own turn has passed, so they stay as placeholder text.
   */
  function RestoreAscending(ts: seq<Tok>, blocks: seq<seq<Tok>>): string {
    if |ts| == 0 then ""
    else
      (match ts[0]
       case Ch(c) => [c]
       case Ph(i) => if i < |blocks| then Render(blocks[i]) else PlaceholderText(i))
      + RestoreAscending(ts[1..], blocks)
  }

  /**
   * Step 4 as evidently intended: every placeholder, including those nested
   * inside a later span, becomes its span again. This equals restoring in
   * descending index order.
   */
  function Expand(ts: seq<Tok>, blocks: seq<seq<Tok>>): string
    decreases |blocks|, |ts|
  {
    if |ts| == 0 then ""
    else
      (match ts[0]
       case Ch(c) => [c]
       case Ph(i) => if i < |blocks| then Expand(blocks[i], blocks[..i]) else PlaceholderText(i))
      + Expand(ts[1..], blocks)
  }

  /** `normalize_tex` as written. */
  function NormalizeTexAsWritten(content: string): (r: string)
    ensures |r| > 0 ==> !IsSpace(r[0]) && !IsSpace(r[|r| - 1])
  {
    var p := ProtectMath(Strip(content));
    Strip(RestoreAscending(CollapseWhitespace(p.toks), p.blocks))
  }

  /** `normalize_tex` with nested spans restored; the rest of the model uses this one. */
  function NormalizeTex(content: string): (r: string)
    ensures |r| > 0 ==> !IsSpace(r[0]) && !IsSpace(r[|r| - 1])
  {
    var p := ProtectMath(Strip(content));
    Strip(Expand(CollapseWhitespace(p.toks), p.blocks))
  }
  /** Every placeholder in `ts` names one of the first `n` spans. */
  predicate RefsBelow(ts: seq<Tok>, n: nat) {
    forall k :: 0 <= k < |ts| && ts[k].Ph? ==> ts[k].index < n
  }

  /** The text refers only to taken spans, and a span only to spans taken before it. */
  predicate WellFormed(p: Protected) {
    && RefsBelow(p.toks, |p.blocks|)
    && forall i :: 0 <= i < |p.blocks| ==> RefsBelow(p.blocks[i], i)
  }

  lemma {:induction false} ExpandAppend(a: seq<Tok>, b: seq<Tok>, blocks: seq<seq<Tok>>)
    ensures Expand(a + b, blocks) == Expand(a, blocks) + Expand(b, blocks)
    decreases |a|
  {
    if |a| == 0 {
      assert a + b == b;
    } else {
      assert (a + b)[0] == a[0];
      assert (a + b)[1..] == a[1..] + b;
      ExpandAppend(a[1..], b, blocks);
    }
  }

  /** Spans taken later do not change how earlier text expands. */
  lemma {:induction false} ExpandExtend(ts: seq<Tok>, blocks: seq<seq<Tok>>, more: seq<seq<Tok>>)
    requires RefsBelow(ts, |blocks|)
    ensures Expand(ts, blocks + more) == Expand(ts, blocks)
    decreases |ts|
  {
    if |ts| > 0 {
      if ts[0].Ph? {
        var i := ts[0].index;
        assert (blocks + more)[..i] == blocks[..i];
        assert (blocks + more)[i] == blocks[i];
      }
      ExpandExtend(ts[1..], blocks, more);
    }
  }

  lemma {:induction false} ExpandChars(s: string)
    ensures Expand(Chars(s), []) == s
  {
    if |s| > 0 {
      assert Chars(s)[1..] == Chars(s[1..]);
      ExpandChars(s[1..]);
      assert s == [s[0]] + s[1..];
    }
  }

  /** Taking the span `ts[..n]` as a new block keeps the state well formed. */
  lemma TakeSpanWellFormed(ts: seq<Tok>, blocks: seq<seq<Tok>>, n: nat)
    requires n <= |ts|
    requires WellFormed(Protected(ts, blocks))
    ensures WellFormed(Protected(ts[n..], blocks + [ts[..n]]))
  {
    var blocks' := blocks + [ts[..n]];
    forall i | 0 <= i < |blocks'| ensures RefsBelow(blocks'[i], i) {
      if i < |blocks| {
        assert blocks'[i] == blocks[i];
      }
    }
  }

  /** The placeholder for a span just taken expands to that span. */
  lemma TakeSpanExpand(ts: seq<Tok>, blocks: seq<seq<Tok>>, n: nat, rest: Protected)
    requires n <= |ts|
    requires RefsBelow(ts, |blocks|)
    requires |blocks| + 1 <= |rest.blocks| && rest.blocks[..|blocks| + 1] == blocks + [ts[..n]]
    requires Expand(rest.toks, rest.blocks) == Expand(ts[n..], blocks + [ts[..n]])
    ensures Expand([Ph(|blocks|)] + rest.toks, rest.blocks) == Expand(ts, blocks)
  {
    var i := |blocks|;
    ExpandPlaceholderCons(i, rest.toks, rest.blocks);
    TakenPrefix(blocks, ts[..n], rest.blocks);
    ExpandExtend(ts[n..], blocks, [ts[..n]]);
    ExpandSplit(ts, n, blocks);
  }

  lemma TakenPrefix(blocks: seq<seq<Tok>>, b: seq<Tok>, all: seq<seq<Tok>>)
    requires |blocks| + 1 <= |all| && all[..|blocks| + 1] == blocks + [b]
    ensures all[|blocks|] == b && all[..|blocks|] == blocks
  {
    assert all[|blocks|] == (all[..|blocks| + 1])[|blocks|];
    assert all[..|blocks|] == (all[..|blocks| + 1])[..|blocks|];
  }

  lemma ExpandSplit(ts: seq<Tok>, n: nat, blocks: seq<seq<Tok>>)
    requires n <= |ts|
    ensures Expand(ts[..n], blocks) + Expand(ts[n..], blocks) == Expand(ts, blocks)
  {
    ExpandAppend(ts[..n], ts[n..], blocks);
    assert ts[..n] + ts[n..] == ts;
  }

  lemma ExpandPlaceholderCons(i: nat, ts: seq<Tok>, blocks: seq<seq<Tok>>)
    requires i < |blocks|
    ensures Expand([Ph(i)] + ts, blocks) == Expand(blocks[i], blocks[..i]) + Expand(ts, blocks)
  {
    var out := [Ph(i)] + ts;
    assert out[0] == Ph(i) && out[1..] == ts;
  }

  /** One protect pass keeps the protected text well formed and loses nothing. */
  lemma {:induction false} ProtectPassSound(k: MathKind, ts: seq<Tok>, blocks: seq<seq<Tok>>)
    requires WellFormed(Protected(ts, blocks))
    ensures WellFormed(ProtectPass(k, ts, blocks))
    ensures Expand(ProtectPass(k, ts, blocks).toks, ProtectPass(k, ts, blocks).blocks) == Expand(ts, blocks)
    decreases |ts|
  {
    if |ts| > 0 {
      var n := SpanLen(k, ts);
      if n > 0 {
        TakeSpanWellFormed(ts, blocks, n);
        ProtectPassSound(k, ts[n..], blocks + [ts[..n]]);
        var rest := ProtectPass(k, ts[n..], blocks + [ts[..n]]);
        TakeSpanExpand(ts, blocks, n, rest);
        assert ProtectPass(k, ts, blocks) == Protected([Ph(|blocks|)] + rest.toks, rest.blocks);
      } else {
        ProtectPassSound(k, ts[1..], blocks);
        var rest := ProtectPass(k, ts[1..], blocks);
        KeepTokenSound(ts, blocks, rest);
      }
    }
  }

  /** Keeping the first token as it is keeps the state well formed and its expansion. */
  lemma KeepTokenSound(ts: seq<Tok>, blocks: seq<seq<Tok>>, rest: Protected)
    requires |ts| > 0 && RefsBelow(ts, |blocks|)
    requires |blocks| <= |rest.blocks| && rest.blocks[..|blocks|] == blocks
    requires WellFormed(rest)
    requires Expand(rest.toks, rest.blocks) == Expand(ts[1..], blocks)
    ensures WellFormed(Protected([ts[0]] + rest.toks, rest.blocks))
    ensures Expand([ts[0]] + rest.toks, rest.blocks) == Expand(ts, blocks)
  {
    var out := [ts[0]] + rest.toks;
    assert out[0] == ts[0] && out[1..] == rest.toks;
    if ts[0].Ph? {
      var i := ts[0].index;
      assert i < |blocks|;
      assert rest.blocks[i] == (rest.blocks[..|blocks|])[i];
      assert rest.blocks[..i] == (rest.blocks[..|blocks|])[..i];
    }
    assert RefsBelow(out, |rest.blocks|) by {
      forall j | 0 <= j < |out| && out[j].Ph? ensures out[j].index < |rest.blocks| {
        if j > 0 {
          assert out[j] == rest.toks[j - 1];
        }
      }
    }
  }

  /** Expanding the protected text of `s` gives `s` back: the math spans are kept verbatim. */
  lemma ProtectMathRoundTrip(s: string)
    ensures WellFormed(ProtectMath(s))
    ensures Expand(ProtectMath(s).toks, ProtectMath(s).blocks) == s
  {
    ExpandChars(s);
    var p1 := ProtectPass(DisplayBracket, Chars(s), []);
    ProtectPassSound(DisplayBracket, Chars(s), []);
    var p2 := ProtectPass(DisplayDollars, p1.toks, p1.blocks);
    ProtectPassSound(DisplayDollars, p1.toks, p1.blocks);
    ProtectPassSound(InlineDollar, p2.toks, p2.blocks);
  }

  /**
   * Whitespace collapse only touches text outside the spans: every placeholder
   * survives, in order, and the spans expand back to the stripped input.
   */
  lemma NormalizeKeepsMath(content: string)
    ensures var p := ProtectMath(Strip(content));
      && Placeholders(CollapseWhitespace(p.toks)) == Placeholders(p.toks)
      && Expand(p.toks, p.blocks) == Strip(content)
  {
    CollapseWhitespaceFacts(ProtectMath(Strip(content)).toks);
    ProtectMathRoundTrip(Strip(content));
  }

  /** `$$\[x\]$$`: a display bracket around one character, inside double dollars. */
  function Nested(x: char): string {
    "$$\\[" + [x] + "\\]$$"
  }

  /** The tokens of the inner bracket span. */
  function InnerSpan(x: char): seq<Tok> {
    [Ch('\\'), Ch('['), Ch(x), Ch('\\'), Ch(']')]
  }

  /** Double dollars around placeholder `i`. */
  function Wrapped(i: nat): seq<Tok> {
    [Ch('$'), Ch('$'), Ph(i), Ch('$'), Ch('$')]
  }

  lemma NestedChars(x: char)
    ensures Chars(Nested(x)) == [Ch('$'), Ch('$')] + InnerSpan(x) + [Ch('$'), Ch('$')]
  {
    var c := Chars(Nested(x));
    var want := [Ch('$'), Ch('$')] + InnerSpan(x) + [Ch('$'), Ch('$')];
    assert |c| == 9 == |want|;
    forall i | 0 <= i < 9 ensures c[i] == want[i] {
    }
  }

  lemma BracketPassTail(blocks: seq<seq<Tok>>)
    ensures ProtectPass(DisplayBracket, [Ch('$'), Ch('$')], blocks) == Protected([Ch('$'), Ch('$')], blocks)
  {
    var tail := [Ch('$'), Ch('$')];
    assert SpanLen(DisplayBracket, tail) == 0;
    assert tail[1..] == [Ch('$')];
    assert SpanLen(DisplayBracket, tail[1..]) == 0;
    assert tail[1..][1..] == [];
  }

  /** The bracket span closes at its own `\]`, whatever character it holds. */
  lemma InnerSpanLen(x: char, tail: seq<Tok>)
    ensures SpanLen(DisplayBracket, InnerSpan(x) + tail) == 5
  {
    var t := InnerSpan(x) + tail;
    assert t[3] == Ch('\\') && t[4] == Ch(']');
    assert FindPair(t, '\\', ']', 3) == Some(3);
    assert FindPair(t, '\\', ']', 2) == Some(3);
  }

  /** The bracket pass takes the inner span and leaves the dollars around its placeholder. */
  lemma NestedBracketPass(x: char)
    ensures ProtectPass(DisplayBracket, Chars(Nested(x)), []) == Protected(Wrapped(0), [InnerSpan(x)])
  {
    NestedChars(x);
    var b0 := InnerSpan(x);
    var tail := [Ch('$'), Ch('$')];
    var t := [Ch('$'), Ch('$')] + b0 + tail;
    var t2 := b0 + tail;
    assert t[2..] == t2;
    BracketPassTail([b0]);
    InnerSpanLen(x, tail);
    assert t2[5..] == tail && t2[..5] == b0;
    assert ProtectPass(DisplayBracket, t2, []) == Protected([Ph(0)] + tail, [b0]);
    assert SpanLen(DisplayBracket, t[1..]) == 0;
    assert t[1..][1..] == t2;
    assert ProtectPass(DisplayBracket, t[1..], []) == Protected([Ch('$'), Ph(0)] + tail, [b0]);
    assert SpanLen(DisplayBracket, t) == 0;
  }

  lemma NestedDollarsPass(b0: seq<Tok>)
    ensures ProtectPass(DisplayDollars, Wrapped(0), [b0]) == Protected([Ph(1)], [b0, Wrapped(0)])
  {
    var u := Wrapped(0);
    assert FindPair(u, '$', '$', 3) == Some(3);
    assert FindPair(u, '$', '$', 2) == Some(3);
    assert SpanLen(DisplayDollars, u) == 5;
    assert u[5..] == [] && u[..5] == u;
  }

  lemma LonePlaceholderPass(k: MathKind, i: nat, blocks: seq<seq<Tok>>)
    ensures ProtectPass(k, [Ph(i)], blocks) == Protected([Ph(i)], blocks)
  {
    assert SpanLen(k, [Ph(i)]) == 0;
    assert [Ph(i)][1..] == [];
  }

  /** The protected form of `$$\[x\]$$`: the bracket is taken first, then the dollars around its placeholder. */
  lemma NestedMathProtect(x: char)
    ensures ProtectMath(Nested(x)) == Protected([Ph(1)], [InnerSpan(x), Wrapped(0)])
  {
    NestedBracketPass(x);
    NestedDollarsPass(InnerSpan(x));
    LonePlaceholderPass(InlineDollar, 1, [InnerSpan(x), Wrapped(0)]);
  }

  lemma CollapseLonePlaceholder(i: nat)
    ensures CollapseWhitespace([Ph(i)]) == [Ph(i)]
  {
    assert [Ph(i)][1..] == [];
    assert CollapseBlanks([Ph(i)]) == [Ph(i)];
  }

  lemma RenderCh(c: char, rest: seq<Tok>)
    ensures Render([Ch(c)] + rest) == [c] + Render(rest)
  {
    assert ([Ch(c)] + rest)[1..] == rest;
  }

  lemma RenderWrapped(i: nat)
    ensures Render(Wrapped(i)) == "$$" + PlaceholderText(i) + "$$"
  {
    var u := Wrapped(i);
    assert u[1..][1..][1..][1..][1..] == [];
    assert Render(u[1..][1..][1..][1..]) == "$";
    assert Render(u[1..][1..][1..]) == "$$";
    assert Render(u[1..][1..]) == PlaceholderText(i) + "$$";
  }

  lemma PlaceholderZero()
    ensures PlaceholderText(0) == "__MATH_BLOCK_0__"
  {
    assert NatToString(0) == "0";
  }

  lemma NestedStripped(x: char)
    ensures Strip(Nested(x)) == Nested(x)
  {
    var s := Nested(x);
    assert s[0] == '$' && s[|s| - 1] == '$';
    StripUnchanged(s);
  }

  /** A display bracket inside double dollars comes back as placeholder text, whatever it holds. */
  lemma NestedMathAsWritten(x: char)
    ensures NormalizeTexAsWritten(Nested(x)) == "$$__MATH_BLOCK_0__$$"
  {
    NestedStripped(x);
    NestedMathProtect(x);
    CollapseLonePlaceholder(1);
    RenderWrapped(0);
    PlaceholderZero();
    RestoreLone(1, [InnerSpan(x), Wrapped(0)]);
    PlaceholderJoin();
    StripUnchanged("$$__MATH_BLOCK_0__$$");
  }

  lemma RestoreLone(i: nat, blocks: seq<seq<Tok>>)
    requires i < |blocks|
    ensures RestoreAscending([Ph(i)], blocks) == Render(blocks[i])
  {
    assert [Ph(i)][1..] == [];
  }

  lemma PlaceholderJoin()
    ensures "$$" + "__MATH_BLOCK_0__" + "$$" == "$$__MATH_BLOCK_0__$$"
  {
  }

  /** No protected span of the stripped content holds the placeholder of another. */
  predicate NoNestedMath(content: string) {
    var p := ProtectMath(Strip(content));
    forall i :: 0 <= i < |p.blocks| ==> Placeholders(p.blocks[i]) == []
  }

  /** Tokens without placeholders expand to their own characters. */
  lemma {:induction false} ExpandPlain(ts: seq<Tok>, blocks: seq<seq<Tok>>)
    requires Placeholders(ts) == []
    ensures Expand(ts, blocks) == Render(ts)
  {
    if |ts| > 0 {
      assert !ts[0].Ph?;
      ExpandPlain(ts[1..], blocks);
    }
  }

  /** With only plain spans, restoring in ascending order is the full expansion. */
  lemma {:induction false} RestorePlainIsExpand(ts: seq<Tok>, blocks: seq<seq<Tok>>)
    requires forall i :: 0 <= i < |blocks| ==> Placeholders(blocks[i]) == []
    ensures RestoreAscending(ts, blocks) == Expand(ts, blocks)
  {
    if |ts| > 0 {
      if ts[0].Ph? && ts[0].index < |blocks| {
        ExpandPlain(blocks[ts[0].index], blocks[..ts[0].index]);
      }
      RestorePlainIsExpand(ts[1..], blocks);
    }
  }

  /** Without nested spans, `normalize_tex` as written and the corrected version agree. */
  lemma NoNestingAgree(content: string)
    requires NoNestedMath(content)
    ensures NormalizeTexAsWritten(content) == NormalizeTex(content)
  {
    var p := ProtectMath(Strip(content));
    RestorePlainIsExpand(CollapseWhitespace(p.toks), p.blocks);
  }

  /** With the spans expanded recursively, the same input is left as it was. */
  lemma NestedMathCorrected(x: char)
    ensures NormalizeTex(Nested(x)) == Nested(x)
  {
    NestedStripped(x);
    NestedMathProtect(x);
    ProtectMathRoundTrip(Nested(x));
    CollapseLonePlaceholder(1);
  }
}
