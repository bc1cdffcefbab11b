/**
 * Normalising twice changes nothing: `normalize_tex` (renforce/tex_parser.py:128-176),
 * with nested spans restored, is idempotent.
 *
 * The argument: re-protecting the normalised text finds exactly the math
 * spans of the first run, in the same order, because the whitespace
 * collapse changes only the length of whitespace runs between spans, and
 * whether a span starts at a given character does not depend on those
 * lengths. The collapsed text between the spans is already collapsed.
 */
module TexNormalizeFixpoint {
  import opened Results
  import opened Text
  import opened TexNormalize

  /** The tokens the whitespace collapse works on: space, tab and newline. */
  predicate IsWs(t: Tok) {
    t == Ch(' ') || t == Ch('\t') || t == Ch('\n')
  }

  // ---------------------------------------------------------------------
  // The skeleton: whitespace runs, whatever their length and make-up, as one space

  function Sk(ts: seq<Tok>): seq<Tok>
    decreases |ts|
  {
    if |ts| == 0 then []
    else if IsWs(ts[0]) && |ts| >= 2 && IsWs(ts[1]) then Sk(ts[1..])
    else [if IsWs(ts[0]) then Ch(' ') else ts[0]] + Sk(ts[1..])
  }

  /** The first token of the skeleton is the first token, or a space for whitespace. */
  lemma {:induction false} SkHead(ts: seq<Tok>)
    requires |ts| > 0
    ensures |Sk(ts)| > 0 && Sk(ts)[0] == (if IsWs(ts[0]) then Ch(' ') else ts[0])
    decreases |ts|
  {
    if IsWs(ts[0]) && |ts| >= 2 && IsWs(ts[1]) {
      SkHead(ts[1..]);
    }
  }

  /** The last token of the skeleton is the last token, or a space for whitespace. */
  lemma {:induction false} SkLast(ts: seq<Tok>)
    requires |ts| > 0
    ensures var s := Sk(ts); |s| > 0 && s[|s| - 1] == (if IsWs(ts[|ts| - 1]) then Ch(' ') else ts[|ts| - 1])
    decreases |ts|
  {
    if |ts| > 1 {
      SkLast(ts[1..]);
      assert ts[1..][|ts| - 2] == ts[|ts| - 1];
    }
  }

  lemma SkEmpty(ts: seq<Tok>)
    requires Sk(ts) == []
    ensures ts == []
  {
    if |ts| > 0 {
      SkHead(ts);
    }
  }

  /** The skeleton of a token put in front. */
  lemma SkCons(x: Tok, a: seq<Tok>)
    ensures Sk([x] + a) ==
      if IsWs(x) && |a| > 0 && IsWs(a[0]) then Sk(a)
      else [if IsWs(x) then Ch(' ') else x] + Sk(a)
  {
    assert ([x] + a)[1..] == a;
  }

  /** Equal skeletons stay equal with the same token, or any whitespace, put in front. */
  lemma SkConsCongruence(x: Tok, y: Tok, a: seq<Tok>, b: seq<Tok>)
    requires x == y || (IsWs(x) && IsWs(y))
    requires Sk(a) == Sk(b)
    ensures Sk([x] + a) == Sk([y] + b)
  {
    SkCons(x, a);
    SkCons(y, b);
    if |a| > 0 {
      SkHead(a);
    }
    if |b| > 0 {
      SkHead(b);
    }
  }

  /** A whitespace run in front has the skeleton of a single space. */
  lemma {:induction false} SkDropWs(w: seq<Tok>, rest: seq<Tok>)
    requires |w| > 0 && forall i :: 0 <= i < |w| ==> IsWs(w[i])
    ensures Sk(w + rest) == Sk([Ch(' ')] + rest)
    decreases |w|
  {
    if |w| == 1 {
      SkConsCongruence(w[0], Ch(' '), rest, rest);
      assert w + rest == [w[0]] + rest;
    } else {
      var t := w + rest;
      assert t[0] == w[0] && t[1] == w[1];
      assert t[1..] == w[1..] + rest;
      SkDropWs(w[1..], rest);
    }
  }

  /** Skeletons of concatenations split where the seam is not inside a whitespace run. */
  lemma {:induction false} SkAppend(a: seq<Tok>, b: seq<Tok>)
    requires !(|a| > 0 && |b| > 0 && IsWs(a[|a| - 1]) && IsWs(b[0]))
    ensures Sk(a + b) == Sk(a) + Sk(b)
    decreases |a|
  {
    if |a| > 0 {
      var t := a + b;
      assert t[0] == a[0] && t[1..] == a[1..] + b;
      if |a| > 1 {
        assert a[1..][|a| - 2] == a[|a| - 1];
        assert t[1] == a[1];
      }
      SkAppend(a[1..], b);
    } else {
      assert a + b == b;
    }
  }

  /** Equal skeletons that start with the same non-whitespace token agree on it, and their tails on their skeletons. */
  lemma SkSplitNonWs(u: seq<Tok>, v: seq<Tok>)
    requires Sk(u) == Sk(v) && |u| > 0 && !IsWs(u[0])
    ensures |v| > 0 && v[0] == u[0] && Sk(u[1..]) == Sk(v[1..])
  {
    SkHead(u);
    SkHead(v);
  }

  /** Equal skeletons start with whitespace together. */
  lemma SkSplitWs(u: seq<Tok>, v: seq<Tok>)
    requires Sk(u) == Sk(v) && |u| > 0 && IsWs(u[0])
    ensures |v| > 0 && IsWs(v[0])
  {
    SkHead(u);
    SkHead(v);
  }

  /** Two lone whitespace tokens in front of equal skeletons: the tails have equal skeletons. */
  lemma SkTailsOfLoneWs(u: seq<Tok>, v: seq<Tok>)
    requires Sk(u) == Sk(v) && |u| > 0 && |v| > 0 && IsWs(u[0]) && IsWs(v[0])
    requires !(|u| >= 2 && IsWs(u[1])) && !(|v| >= 2 && IsWs(v[1]))
    ensures Sk(u[1..]) == Sk(v[1..])
  {
  }

  /** Whether a placeholder at or above `n` occurs does not depend on whitespace. */
  lemma {:induction false} RefsBelowSk(ts: seq<Tok>, n: nat)
    ensures RefsBelow(ts, n) <==> RefsBelow(Sk(ts), n)
    decreases |ts|
  {
    if |ts| > 0 {
      RefsBelowSk(ts[1..], n);
      RefsBelowCons(ts[0], ts[1..], n);
      assert ts == [ts[0]] + ts[1..];
      if !(IsWs(ts[0]) && |ts| >= 2 && IsWs(ts[1])) {
        RefsBelowCons(if IsWs(ts[0]) then Ch(' ') else ts[0], Sk(ts[1..]), n);
      }
    }
  }

  lemma RefsBelowCons(h: Tok, s: seq<Tok>, n: nat)
    ensures RefsBelow([h] + s, n) <==> (!h.Ph? || h.index < n) && RefsBelow(s, n)
  {
    var out := [h] + s;
    if RefsBelow(out, n) {
      assert out[0] == h;
      forall k | 0 <= k < |s| && s[k].Ph? ensures s[k].index < n {
        assert out[k + 1] == s[k];
      }
    }
    if (!h.Ph? || h.index < n) && RefsBelow(s, n) {
      forall k | 0 <= k < |out| && out[k].Ph? ensures out[k].index < n {
        if k > 0 {
          assert out[k] == s[k - 1];
        }
      }
    }
  }

  // ---------------------------------------------------------------------
  // Partial expansion: the spans numbered `lo` and up are put back

  function Level(ts: seq<Tok>, blocks: seq<seq<Tok>>, lo: nat): seq<Tok>
    decreases |blocks|, |ts|
  {
    if |ts| == 0 then []
    else
      (match ts[0]
       case Ch(_) => [ts[0]]
       case Ph(j) => if lo <= j < |blocks| then Level(blocks[j], blocks[..j], lo) else [ts[0]])
      + Level(ts[1..], blocks, lo)
  }

  /** What a single token becomes. */
  function LevelTok(t: Tok, blocks: seq<seq<Tok>>, lo: nat): seq<Tok>
    decreases |blocks|, 1
  {
    match t
    case Ch(_) => [t]
    case Ph(j) => if lo <= j < |blocks| then Level(blocks[j], blocks[..j], lo) else [t]
  }

  lemma LevelCons(ts: seq<Tok>, blocks: seq<seq<Tok>>, lo: nat)
    requires |ts| > 0
    ensures Level(ts, blocks, lo) == LevelTok(ts[0], blocks, lo) + Level(ts[1..], blocks, lo)
  {
  }

  lemma {:induction false} LevelAppend(a: seq<Tok>, b: seq<Tok>, blocks: seq<seq<Tok>>, lo: nat)
    ensures Level(a + b, blocks, lo) == Level(a, blocks, lo) + Level(b, blocks, lo)
    decreases |a|
  {
    if |a| == 0 {
      assert a + b == b;
    } else {
      assert (a + b)[0] == a[0];
      assert (a + b)[1..] == a[1..] + b;
      LevelCons(a + b, blocks, lo);
      LevelCons(a, blocks, lo);
      LevelAppend(a[1..], b, blocks, lo);
    }
  }

  /** Text that names no span at or above `lo` is left as it is. */
  lemma {:induction false} LevelBelow(ts: seq<Tok>, blocks: seq<seq<Tok>>, lo: nat)
    requires RefsBelow(ts, lo)
    ensures Level(ts, blocks, lo) == ts
    decreases |ts|
  {
    if |ts| > 0 {
      LevelCons(ts, blocks, lo);
      LevelBelow(ts[1..], blocks, lo);
      assert ts == [ts[0]] + ts[1..];
    }
  }

  /** Putting back the spans from `n2` up, then those from `n1` up, puts back those from `n1` up. */
  lemma {:induction false} LevelCompose(ts: seq<Tok>, blocks: seq<seq<Tok>>, n1: nat, n2: nat)
    requires n1 <= n2 <= |blocks|
    ensures Level(Level(ts, blocks, n2), blocks[..n2], n1) == Level(ts, blocks, n1)
    decreases |blocks|, |ts|
  {
    if |ts| > 0 {
      var head := LevelTok(ts[0], blocks, n2);
      LevelCons(ts, blocks, n2);
      LevelCons(ts, blocks, n1);
      LevelAppend(head, Level(ts[1..], blocks, n2), blocks[..n2], n1);
      LevelCompose(ts[1..], blocks, n1, n2);
      match ts[0]
      case Ch(_) =>
        LevelSingle(ts[0], blocks[..n2], n1);
      case Ph(j) =>
        if n2 <= j < |blocks| {
          LevelCompose(blocks[j], blocks[..j], n1, n2);
          assert blocks[..j][..n2] == blocks[..n2];
        } else {
          LevelSingle(ts[0], blocks[..n2], n1);
          if n1 <= j < n2 {
            assert blocks[..n2][j] == blocks[j];
            assert blocks[..n2][..j] == blocks[..j];
          }
        }
    }
  }

  lemma LevelSingle(t: Tok, blocks: seq<seq<Tok>>, lo: nat)
    ensures Level([t], blocks, lo) == LevelTok(t, blocks, lo)
  {
    LevelCons([t], blocks, lo);
    assert [t][1..] == [];
  }

  lemma {:induction false} CharsAppend(a: string, b: string)
    ensures Chars(a + b) == Chars(a) + Chars(b)
  {
    assert |Chars(a + b)| == |Chars(a) + Chars(b)|;
    forall i | 0 <= i < |a + b| ensures Chars(a + b)[i] == (Chars(a) + Chars(b))[i] {
      if i < |a| {
        assert (a + b)[i] == a[i];
      } else {
        assert (a + b)[i] == b[i - |a|];
      }
    }
  }

  /** Putting back every span is the full expansion, as tokens. */
  lemma {:induction false} LevelZero(ts: seq<Tok>, blocks: seq<seq<Tok>>)
    requires RefsBelow(ts, |blocks|)
    requires forall i :: 0 <= i < |blocks| ==> RefsBelow(blocks[i], i)
    ensures Level(ts, blocks, 0) == Chars(Expand(ts, blocks))
    decreases |blocks|, |ts|
  {
    if |ts| > 0 {
      LevelCons(ts, blocks, 0);
      LevelZero(ts[1..], blocks);
      var e0 := match ts[0]
        case Ch(c) => [c]
        case Ph(i) => if i < |blocks| then Expand(blocks[i], blocks[..i]) else PlaceholderText(i);
      assert Expand(ts, blocks) == e0 + Expand(ts[1..], blocks);
      CharsAppend(e0, Expand(ts[1..], blocks));
      match ts[0]
      case Ch(c) =>
        assert Chars([c]) == [Ch(c)];
      case Ph(i) =>
        assert i < |blocks|;
        forall i' | 0 <= i' < i ensures RefsBelow(blocks[..i][i'], i') {
          assert blocks[..i][i'] == blocks[i'];
        }
        LevelZero(blocks[i], blocks[..i]);
    }
  }

  /** The shape of a protected span: a delimiter character at each end. */
  predicate SpanShaped(b: seq<Tok>) {
    && |b| >= 2
    && (b[0] == Ch('\\') || b[0] == Ch('$'))
    && (b[|b| - 1] == Ch(']') || b[|b| - 1] == Ch('$'))
  }

  /** A span keeps its end delimiters when the spans inside it are put back. */
  lemma LevelEnds(b: seq<Tok>, blocks: seq<seq<Tok>>, lo: nat)
    requires SpanShaped(b)
    ensures var e := Level(b, blocks, lo);
      |e| >= 2 && e[0] == b[0] && e[|e| - 1] == b[|b| - 1]
  {
    var mid := b[1..|b| - 1];
    assert b == [b[0]] + mid + [b[|b| - 1]];
    LevelAppend([b[0]] + mid, [b[|b| - 1]], blocks, lo);
    LevelAppend([b[0]], mid, blocks, lo);
    LevelSingle(b[0], blocks, lo);
    LevelSingle(b[|b| - 1], blocks, lo);
  }

  /** The spans from `lo` up all have span shape. */
  predicate ShapedFrom(blocks: seq<seq<Tok>>, lo: nat) {
    forall m :: lo <= m < |blocks| ==> SpanShaped(blocks[m])
  }

  /** What one token becomes is never empty, and it starts and ends with whitespace only when the token is whitespace. */
  lemma LevelTokEnds(t: Tok, blocks: seq<seq<Tok>>, lo: nat)
    requires ShapedFrom(blocks, lo)
    ensures var e := LevelTok(t, blocks, lo);
      && |e| > 0
      && (IsWs(e[0]) <==> IsWs(t)) && (IsWs(e[|e| - 1]) <==> IsWs(t))
      && (!t.Ph? ==> e == [t])
  {
    if t.Ph? && lo <= t.index < |blocks| {
      LevelEnds(blocks[t.index], blocks[..t.index], lo);
    }
  }

  /** Equal skeletons stay equal when the spans from `lo` up are put back. */
  lemma {:induction false} SkLevel(x: seq<Tok>, y: seq<Tok>, blocks: seq<seq<Tok>>, lo: nat)
    requires ShapedFrom(blocks, lo)
    requires Sk(x) == Sk(y)
    ensures Sk(Level(x, blocks, lo)) == Sk(Level(y, blocks, lo))
    decreases |x| + |y|
  {
    if |x| == 0 {
      SkEmpty(y);
    } else if !IsWs(x[0]) {
      SkSplitNonWs(x, y);
      SkLevel(x[1..], y[1..], blocks, lo);
      var h := LevelTok(x[0], blocks, lo);
      LevelTokEnds(x[0], blocks, lo);
      LevelCons(x, blocks, lo);
      LevelCons(y, blocks, lo);
      SkAppend(h, Level(x[1..], blocks, lo));
      SkAppend(h, Level(y[1..], blocks, lo));
    } else {
      SkSplitWs(x, y);
      LevelTokEnds(x[0], blocks, lo);
      LevelTokEnds(y[0], blocks, lo);
      LevelCons(x, blocks, lo);
      LevelCons(y, blocks, lo);
      if |x| >= 2 && IsWs(x[1]) {
        SkLevel(x[1..], y, blocks, lo);
        LevelHeadWs(x[1..], blocks, lo);
        SkCons(x[0], Level(x[1..], blocks, lo));
      } else if |y| >= 2 && IsWs(y[1]) {
        SkLevel(x, y[1..], blocks, lo);
        LevelHeadWs(y[1..], blocks, lo);
        SkCons(y[0], Level(y[1..], blocks, lo));
      } else {
        SkTailsOfLoneWs(x, y);
        SkLevel(x[1..], y[1..], blocks, lo);
        SkConsCongruence(x[0], y[0], Level(x[1..], blocks, lo), Level(y[1..], blocks, lo));
      }
    }
  }

  /** Putting spans back keeps whether the text starts with whitespace. */
  lemma LevelHeadWs(ts: seq<Tok>, blocks: seq<seq<Tok>>, lo: nat)
    requires ShapedFrom(blocks, lo)
    requires |ts| > 0
    ensures var e := Level(ts, blocks, lo); |e| > 0 && (IsWs(e[0]) <==> IsWs(ts[0]))
  {
    LevelCons(ts, blocks, lo);
    LevelTokEnds(ts[0], blocks, lo);
  }

  // ---------------------------------------------------------------------
  // Whether a span starts here does not depend on whitespace lengths

  predicate HasPair(ts: seq<Tok>, a: char, b: char)
    decreases |ts|
  {
    |ts| >= 2 && ((ts[0] == Ch(a) && ts[1] == Ch(b)) || HasPair(ts[1..], a, b))
  }

  predicate HasTok(ts: seq<Tok>, a: char)
    decreases |ts|
  {
    |ts| >= 1 && (ts[0] == Ch(a) || HasTok(ts[1..], a))
  }

  lemma {:induction false} FindPairHas(ts: seq<Tok>, a: char, b: char, from: nat)
    requires from <= |ts|
    ensures FindPair(ts, a, b, from).Some? <==> HasPair(ts[from..], a, b)
    decreases |ts| - from
  {
    if from + 1 < |ts| && !(ts[from] == Ch(a) && ts[from + 1] == Ch(b)) {
      FindPairHas(ts, a, b, from + 1);
      assert ts[from..][1..] == ts[from + 1..];
    }
  }

  lemma {:induction false} FindTokHas(ts: seq<Tok>, a: char, from: nat)
    requires from <= |ts|
    ensures FindTok(ts, a, from).Some? <==> HasTok(ts[from..], a)
    decreases |ts| - from
  {
    if from < |ts| && ts[from] != Ch(a) {
      FindTokHas(ts, a, from + 1);
      assert ts[from..][1..] == ts[from + 1..];
    }
  }

  lemma {:induction false} HasPairSk(ts: seq<Tok>, a: char, b: char)
    requires !IsWs(Ch(a)) && !IsWs(Ch(b))
    ensures HasPair(ts, a, b) <==> HasPair(Sk(ts), a, b)
    decreases |ts|
  {
    if |ts| == 1 {
      assert |Sk(ts)| == 1;
    } else if |ts| >= 2 {
      HasPairSk(ts[1..], a, b);
      if !(IsWs(ts[0]) && IsWs(ts[1])) {
        SkHead(ts[1..]);
        var out := Sk(ts);
        assert out[1..] == Sk(ts[1..]);
      }
    }
  }

  lemma {:induction false} HasTokSk(ts: seq<Tok>, a: char)
    requires !IsWs(Ch(a))
    ensures HasTok(ts, a) <==> HasTok(Sk(ts), a)
    decreases |ts|
  {
    if |ts| >= 1 {
      HasTokSk(ts[1..], a);
      if !(IsWs(ts[0]) && |ts| >= 2 && IsWs(ts[1])) {
        var out := Sk(ts);
        assert out[1..] == Sk(ts[1..]);
      }
    }
  }

  /** When a span of each kind starts at the front, in terms of the text after its opening. */
  lemma SpanLenPositive(k: MathKind, u: seq<Tok>)
    ensures SpanLen(k, u) > 0 <==>
      match k
      case DisplayBracket => |u| >= 2 && u[0] == Ch('\\') && u[1] == Ch('[') && HasPair(u[2..], '\\', ']')
      case DisplayDollars => |u| >= 2 && u[0] == Ch('$') && u[1] == Ch('$') && HasPair(u[2..], '$', '$')
      case InlineDollar => |u| >= 2 && u[0] == Ch('$') && u[1] != Ch('$') && HasTok(u[1..], '$')
  {
    if |u| >= 2 {
      FindPairHas(u, '\\', ']', 2);
      FindPairHas(u, '$', '$', 2);
      FindTokHas(u, '$', 1);
      assert u[1..][1..] == u[2..];
    }
  }

  /** Whether a span starts at the front is the same for texts with equal skeletons. */
  lemma SpanZeroSk(k: MathKind, u: seq<Tok>, v: seq<Tok>)
    requires Sk(u) == Sk(v)
    ensures SpanLen(k, u) == 0 <==> SpanLen(k, v) == 0
  {
    SpanLenPositive(k, u);
    SpanLenPositive(k, v);
    if |u| == 0 {
      SkEmpty(v);
    } else if IsWs(u[0]) {
      SkSplitWs(u, v);
    } else {
      SkSplitNonWs(u, v);
      if |u| == 1 {
        SkEmpty(v[1..]);
      } else {
        var u1, v1 := u[1..], v[1..];
        HasTokSk(u1, '$');
        HasTokSk(v1, '$');
        if IsWs(u1[0]) {
          SkSplitWs(u1, v1);
        } else {
          SkSplitNonWs(u1, v1);
          assert u1[1..] == u[2..] && v1[1..] == v[2..];
          HasPairSk(u[2..], '\\', ']');
          HasPairSk(v[2..], '\\', ']');
          HasPairSk(u[2..], '$', '$');
          HasPairSk(v[2..], '$', '$');
        }
      }
    }
  }

  lemma {:induction false} FindPairAgree(ts: seq<Tok>, ts': seq<Tok>, a: char, b: char, from: nat, q: nat)
    requires FindPair(ts, a, b, from) == Some(q)
    requires q + 2 <= |ts'| && ts'[..q + 2] == ts[..q + 2]
    ensures FindPair(ts', a, b, from) == Some(q)
    decreases q - from
  {
    assert ts'[from] == ts'[..q + 2][from] && ts[from] == ts[..q + 2][from];
    assert ts'[from + 1] == ts'[..q + 2][from + 1] && ts[from + 1] == ts[..q + 2][from + 1];
    if from < q {
      FindPairAgree(ts, ts', a, b, from + 1, q);
    }
  }

  lemma {:induction false} FindTokAgree(ts: seq<Tok>, ts': seq<Tok>, a: char, from: nat, q: nat)
    requires FindTok(ts, a, from) == Some(q)
    requires q + 1 <= |ts'| && ts'[..q + 1] == ts[..q + 1]
    ensures FindTok(ts', a, from) == Some(q)
    decreases q - from
  {
    assert ts'[from] == ts'[..q + 1][from] && ts[from] == ts[..q + 1][from];
    if from < q {
      FindTokAgree(ts, ts', a, from + 1, q);
    }
  }

  /** The shortest span at the front is found whatever follows it. */
  lemma SpanLenPrefix(k: MathKind, u: seq<Tok>, rest: seq<Tok>)
    requires SpanLen(k, u) > 0
    ensures var n := SpanLen(k, u); SpanLen(k, u[..n] + rest) == n
  {
    var n := SpanLen(k, u);
    var v := u[..n] + rest;
    assert v[..n] == u[..n];
    assert v[0] == u[0] && v[1] == u[1];
    match k
    case DisplayBracket =>
      FindPairAgree(u, v, '\\', ']', 2, n - 2);
    case DisplayDollars =>
      FindPairAgree(u, v, '$', '$', 2, n - 2);
    case InlineDollar =>
      FindTokAgree(u, v, '$', 1, n - 1);
  }

  // ---------------------------------------------------------------------
  // A protect pass, undone

  lemma RefsBelowSlice(ts: seq<Tok>, i: nat, j: nat, lo: nat)
    requires i <= j <= |ts| && RefsBelow(ts, lo)
    ensures RefsBelow(ts[i..j], lo)
  {
    forall m | 0 <= m < j - i && ts[i..j][m].Ph? ensures ts[i..j][m].index < lo {
      assert ts[i..j][m] == ts[i + m];
    }
  }

  /** The span step of a pass, undone. */
  lemma SpanUndone(k: MathKind, ts: seq<Tok>, blocks: seq<seq<Tok>>, lo: nat, rest: Protected)
    requires lo <= |blocks| && RefsBelow(ts, lo)
    requires SpanLen(k, ts) > 0
    requires |blocks| + 1 <= |rest.blocks|
    requires rest.blocks[..|blocks| + 1] == blocks + [ts[..SpanLen(k, ts)]]
    requires Level(rest.toks, rest.blocks, lo) == ts[SpanLen(k, ts)..]
    ensures Level([Ph(|blocks|)] + rest.toks, rest.blocks, lo) == ts
    ensures SpanShaped(rest.blocks[|blocks|]) && RefsBelow(rest.blocks[|blocks|], lo)
  {
    var n := SpanLen(k, ts);
    TakenPrefix(blocks, ts[..n], rest.blocks);
    RefsBelowSlice(ts, 0, n, lo);
    LevelBelow(ts[..n], blocks, lo);
    var t := [Ph(|blocks|)] + rest.toks;
    LevelCons(t, rest.blocks, lo);
    assert t[1..] == rest.toks;
    assert LevelTok(Ph(|blocks|), rest.blocks, lo) == ts[..n];
    assert ts[..n] + ts[n..] == ts;
  }

  /** The keep step of a pass, undone. */
  lemma KeepUndone(ts: seq<Tok>, lo: nat, rest: Protected)
    requires |ts| > 0 && RefsBelow(ts, lo)
    requires Level(rest.toks, rest.blocks, lo) == ts[1..]
    ensures Level([ts[0]] + rest.toks, rest.blocks, lo) == ts
  {
    var t := [ts[0]] + rest.toks;
    LevelCons(t, rest.blocks, lo);
    assert t[1..] == rest.toks;
    assert LevelTok(ts[0], rest.blocks, lo) == [ts[0]];
    assert [ts[0]] + ts[1..] == ts;
  }

  /**
   * A pass over text naming only spans below `lo` can be undone by putting
   * back the spans from `lo` up.
   */
  lemma {:induction false} PassUndone(k: MathKind, ts: seq<Tok>, blocks: seq<seq<Tok>>, lo: nat)
    requires lo <= |blocks|
    requires RefsBelow(ts, lo)
    ensures var r := ProtectPass(k, ts, blocks); Level(r.toks, r.blocks, lo) == ts
    decreases |ts|
  {
    if |ts| > 0 {
      var n := SpanLen(k, ts);
      if n > 0 {
        RefsBelowSlice(ts, n, |ts|, lo);
        PassUndone(k, ts[n..], blocks + [ts[..n]], lo);
        var rest := ProtectPass(k, ts[n..], blocks + [ts[..n]]);
        assert ProtectPass(k, ts, blocks) == Protected([Ph(|blocks|)] + rest.toks, rest.blocks);
        SpanUndone(k, ts, blocks, lo, rest);
      } else {
        RefsBelowSlice(ts, 1, |ts|, lo);
        PassUndone(k, ts[1..], blocks, lo);
        var rest := ProtectPass(k, ts[1..], blocks);
        assert ProtectPass(k, ts, blocks) == Protected([ts[0]] + rest.toks, rest.blocks);
        KeepUndone(ts, lo, rest);
      }
    }
  }

  /** The spans numbered `from` and up have span shape and name only spans below `lo`. */
  predicate ShapedBelow(blocks: seq<seq<Tok>>, from: nat, lo: nat) {
    forall m :: from <= m < |blocks| ==> SpanShaped(blocks[m]) && RefsBelow(blocks[m], lo)
  }

  lemma ShapedSpanStep(k: MathKind, ts: seq<Tok>, blocks: seq<seq<Tok>>, lo: nat, rest: Protected)
    requires lo <= |blocks| && RefsBelow(ts, lo) && |ts| > 0
    requires SpanLen(k, ts) > 0
    requires rest == ProtectPass(k, ts[SpanLen(k, ts)..], blocks + [ts[..SpanLen(k, ts)]])
    requires Level(rest.toks, rest.blocks, lo) == ts[SpanLen(k, ts)..]
    requires ShapedBelow(rest.blocks, |blocks| + 1, lo)
    ensures ShapedBelow(ProtectPass(k, ts, blocks).blocks, |blocks|, lo)
  {
    assert ProtectPass(k, ts, blocks).blocks == rest.blocks;
    SpanUndone(k, ts, blocks, lo, rest);
  }

  lemma ShapedKeepStep(k: MathKind, ts: seq<Tok>, blocks: seq<seq<Tok>>, lo: nat)
    requires |ts| > 0 && SpanLen(k, ts) == 0
    requires ShapedBelow(ProtectPass(k, ts[1..], blocks).blocks, |blocks|, lo)
    ensures ShapedBelow(ProtectPass(k, ts, blocks).blocks, |blocks|, lo)
  {
    assert ProtectPass(k, ts, blocks).blocks == ProtectPass(k, ts[1..], blocks).blocks;
  }

  /** The spans a pass takes have span shape and name only spans the text named. */
  lemma {:induction false} PassSpansShaped(k: MathKind, ts: seq<Tok>, blocks: seq<seq<Tok>>, lo: nat)
    requires lo <= |blocks|
    requires RefsBelow(ts, lo)
    ensures ShapedBelow(ProtectPass(k, ts, blocks).blocks, |blocks|, lo)
    decreases |ts|
  {
    if |ts| > 0 {
      var n := SpanLen(k, ts);
      if n > 0 {
        RefsBelowSlice(ts, n, |ts|, lo);
        PassSpansShaped(k, ts[n..], blocks + [ts[..n]], lo);
        PassUndone(k, ts[n..], blocks + [ts[..n]], lo);
        ShapedSpanStep(k, ts, blocks, lo, ProtectPass(k, ts[n..], blocks + [ts[..n]]));
      } else {
        RefsBelowSlice(ts, 1, |ts|, lo);
        PassSpansShaped(k, ts[1..], blocks, lo);
        ShapedKeepStep(k, ts, blocks, lo);
      }
    }
  }

  // ---------------------------------------------------------------------
  // Re-protecting text whose whitespace runs changed length

  /** When the pass takes a span at the front of the expanded text, the text starts with that span's placeholder. */
  lemma SpanFront(k: MathKind, x: seq<Tok>, bl: seq<seq<Tok>>, lo: nat, c: nat)
    requires lo <= c <= |bl| && ShapedBelow(bl, lo, lo)
    requires ProtectPass(k, Level(x, bl, lo), bl[..c]) == Protected(x, bl)
    requires |Level(x, bl, lo)| > 0 && SpanLen(k, Level(x, bl, lo)) > 0
    ensures |x| > 0 && c < |bl| && x[0] == Ph(c)
    ensures var u := Level(x, bl, lo); SpanLen(k, u) == |bl[c]| && u[..|bl[c]|] == bl[c]
    ensures ProtectPass(k, Level(x[1..], bl, lo), bl[..c + 1]) == Protected(x[1..], bl)
  {
    var u := Level(x, bl, lo);
    var n := SpanLen(k, u);
    var rest := ProtectPass(k, u[n..], bl[..c] + [u[..n]]);
    assert ProtectPass(k, u, bl[..c]) == Protected([Ph(c)] + rest.toks, rest.blocks);
    assert x[0] == Ph(c) && x[1..] == rest.toks && rest.blocks == bl;
    TakenPrefix(bl[..c], u[..n], bl);
    assert bl[c] == u[..n];
    LevelBelow(bl[c], bl[..c], lo);
    LevelCons(x, bl, lo);
    assert u == bl[c] + Level(x[1..], bl, lo);
    assert u[n..] == Level(x[1..], bl, lo);
    assert bl[..c] + [u[..n]] == bl[..c + 1];
  }

  /** When the pass keeps the front token of the expanded text, that token is the text's own front token. */
  lemma KeepFront(k: MathKind, x: seq<Tok>, bl: seq<seq<Tok>>, lo: nat, c: nat)
    requires lo <= c <= |bl| && ShapedBelow(bl, lo, lo)
    requires ProtectPass(k, Level(x, bl, lo), bl[..c]) == Protected(x, bl)
    requires |Level(x, bl, lo)| > 0 && SpanLen(k, Level(x, bl, lo)) == 0
    ensures |x| > 0 && LevelTok(x[0], bl, lo) == [x[0]]
    ensures ProtectPass(k, Level(x[1..], bl, lo), bl[..c]) == Protected(x[1..], bl)
  {
    var u := Level(x, bl, lo);
    var rest := ProtectPass(k, u[1..], bl[..c]);
    assert ProtectPass(k, u, bl[..c]) == Protected([u[0]] + rest.toks, rest.blocks);
    assert x[0] == u[0] && x[1..] == rest.toks && rest.blocks == bl;
    LevelCons(x, bl, lo);
    var h := LevelTok(x[0], bl, lo);
    if x[0].Ph? && lo <= x[0].index < |bl| {
      LevelEnds(bl[x[0].index], bl[..x[0].index], lo);
      assert false;
    }
    assert u[1..] == Level(x[1..], bl, lo);
  }

  /** Putting a span's placeholder in front of re-protected text. */
  lemma SpanAssemble(k: MathKind, y: seq<Tok>, bl: seq<seq<Tok>>, lo: nat, c: nat)
    requires lo <= c < |bl| && ShapedBelow(bl, lo, lo)
    requires |y| > 0 && y[0] == Ph(c)
    requires SpanLen(k, bl[c] + Level(y[1..], bl, lo)) == |bl[c]|
    requires ProtectPass(k, Level(y[1..], bl, lo), bl[..c + 1]) == Protected(y[1..], bl)
    ensures ProtectPass(k, Level(y, bl, lo), bl[..c]) == Protected(y, bl)
  {
    var v := Level(y, bl, lo);
    var n := |bl[c]|;
    LevelBelow(bl[c], bl[..c], lo);
    LevelCons(y, bl, lo);
    assert v == bl[c] + Level(y[1..], bl, lo);
    assert v[..n] == bl[c] && v[n..] == Level(y[1..], bl, lo);
    assert bl[..c] + [bl[c]] == bl[..c + 1];
    assert [Ph(c)] + y[1..] == y;
  }

  /** Putting a kept token in front of re-protected text. */
  lemma KeepAssemble(k: MathKind, y: seq<Tok>, bl: seq<seq<Tok>>, lo: nat, c: nat)
    requires c <= |bl|
    requires |y| > 0 && LevelTok(y[0], bl, lo) == [y[0]]
    requires SpanLen(k, Level(y, bl, lo)) == 0
    requires ProtectPass(k, Level(y[1..], bl, lo), bl[..c]) == Protected(y[1..], bl)
    ensures ProtectPass(k, Level(y, bl, lo), bl[..c]) == Protected(y, bl)
  {
    var v := Level(y, bl, lo);
    LevelCons(y, bl, lo);
    assert v == [y[0]] + Level(y[1..], bl, lo);
    assert v[1..] == Level(y[1..], bl, lo);
    assert [y[0]] + y[1..] == y;
  }

  /**
   * A protect pass that, run on the expansion of `x`, gives back `x` with
   * the spans `bl`, does the same for every `y` with the same skeleton:
   * the spans start at the same places and the whitespace between them is
   * kept as it is.
   */
  lemma {:induction false} Rescan(k: MathKind, x: seq<Tok>, y: seq<Tok>, bl: seq<seq<Tok>>, lo: nat, c: nat)
    requires lo <= c <= |bl| && ShapedBelow(bl, lo, lo)
    requires Sk(x) == Sk(y)
    requires ProtectPass(k, Level(x, bl, lo), bl[..c]) == Protected(x, bl)
    ensures ProtectPass(k, Level(y, bl, lo), bl[..c]) == Protected(y, bl)
    decreases |x| + |y|
  {
    if |x| == 0 {
      SkEmpty(y);
    } else {
      var u := Level(x, bl, lo);
      LevelHeadWs(x, bl, lo);
      if SpanLen(k, u) > 0 {
        SpanFront(k, x, bl, lo, c);
        SkSplitNonWs(x, y);
        Rescan(k, x[1..], y[1..], bl, lo, c + 1);
        SpanLenPrefix(k, u, Level(y[1..], bl, lo));
        SpanAssemble(k, y, bl, lo, c);
      } else {
        KeepFront(k, x, bl, lo, c);
        if !IsWs(x[0]) {
          SkSplitNonWs(x, y);
          Rescan(k, x[1..], y[1..], bl, lo, c);
          SkLevel(x, y, bl, lo);
          SpanZeroSk(k, u, Level(y, bl, lo));
          KeepAssemble(k, y, bl, lo, c);
        } else {
          SkSplitWs(x, y);
          LevelTokEnds(y[0], bl, lo);
          LevelHeadWs(y, bl, lo);
          if |x| >= 2 && IsWs(x[1]) {
            Rescan(k, x[1..], y, bl, lo, c);
          } else if |y| >= 2 && IsWs(y[1]) {
            Rescan(k, x, y[1..], bl, lo, c);
            KeepAssemble(k, y, bl, lo, c);
          } else {
            SkTailsOfLoneWs(x, y);
            Rescan(k, x[1..], y[1..], bl, lo, c);
            KeepAssemble(k, y, bl, lo, c);
          }
        }
      }
    }
  }

  // ---------------------------------------------------------------------
  // The whitespace collapse: a fixpoint, and skeleton-preserving

  predicate NoTabs(ts: seq<Tok>) {
    forall i :: 0 <= i < |ts| ==> ts[i] != Ch('\t')
  }

  lemma {:induction false} CollapseBlanksNoTabs(ts: seq<Tok>)
    ensures NoTabs(CollapseBlanks(ts))
    decreases |ts|
  {
    if |ts| > 0 {
      if IsBlankTok(ts[0]) {
        CollapseBlanksNoTabs(ts[BlankRun(ts)..]);
      } else {
        CollapseBlanksNoTabs(ts[1..]);
      }
    }
  }

  lemma {:induction false} CollapseNewlinesKeepsNoTabs(ts: seq<Tok>)
    requires NoTabs(ts)
    ensures NoTabs(CollapseNewlines(ts))
    decreases |ts|
  {
    if |ts| > 0 {
      if |ts| >= 2 && ts[0] == Ch('\n') && ts[1] == Ch('\n') {
        CollapseNewlinesKeepsNoTabs(ts[NewlineRun(ts)..]);
      } else {
        CollapseNewlinesKeepsNoTabs(ts[1..]);
      }
    }
  }

  /** Text without tabs or neighbouring blanks is left alone by the blank collapse. */
  lemma {:induction false} CollapseBlanksFixed(ts: seq<Tok>)
    requires NoTabs(ts) && NoBlankRuns(ts)
    ensures CollapseBlanks(ts) == ts
    decreases |ts|
  {
    if |ts| > 0 {
      assert NoTabs(ts[1..]) && NoBlankRuns(ts[1..]) by {
        forall i | 0 <= i < |ts| - 2 ensures !(IsBlankTok(ts[1..][i]) && IsBlankTok(ts[1..][i + 1])) {
          assert ts[1..][i] == ts[i + 1] && ts[1..][i + 1] == ts[i + 2];
        }
      }
      CollapseBlanksFixed(ts[1..]);
      if IsBlankTok(ts[0]) {
        assert ts[0] == Ch(' ');
        assert BlankRun(ts) == 1 + BlankRun(ts[1..]);
        assert |ts| > 1 ==> !IsBlankTok(ts[1]);
        assert BlankRun(ts) == 1;
      }
      assert [ts[0]] + ts[1..] == ts;
    }
  }

  /** Text without three neighbouring newlines is left alone by the newline collapse. */
  lemma {:induction false} CollapseNewlinesFixed(ts: seq<Tok>)
    requires NoTripleNewlines(ts)
    ensures CollapseNewlines(ts) == ts
    decreases |ts|
  {
    if |ts| > 0 {
      assert NoTripleNewlines(ts[1..]) by {
        forall i | 0 <= i < |ts| - 3
          ensures !(ts[1..][i] == Ch('\n') && ts[1..][i + 1] == Ch('\n') && ts[1..][i + 2] == Ch('\n'))
        {
          assert ts[1..][i] == ts[i + 1] && ts[1..][i + 1] == ts[i + 2] && ts[1..][i + 2] == ts[i + 3];
        }
      }
      if |ts| >= 2 && ts[0] == Ch('\n') && ts[1] == Ch('\n') {
        assert NewlineRun(ts) == 2 by {
          assert NewlineRun(ts) == 1 + NewlineRun(ts[1..]);
          assert NewlineRun(ts[1..]) == 1 + NewlineRun(ts[2..]);
          assert |ts| > 2 ==> ts[2] != Ch('\n');
        }
        assert NoTripleNewlines(ts[2..]) by {
          forall i | 0 <= i < |ts| - 4
            ensures !(ts[2..][i] == Ch('\n') && ts[2..][i + 1] == Ch('\n') && ts[2..][i + 2] == Ch('\n'))
          {
            assert ts[2..][i] == ts[i + 2] && ts[2..][i + 1] == ts[i + 3] && ts[2..][i + 2] == ts[i + 4];
          }
        }
        CollapseNewlinesFixed(ts[2..]);
        assert [Ch('\n'), Ch('\n')] + ts[2..] == ts;
      } else {
        CollapseNewlinesFixed(ts[1..]);
        assert [ts[0]] + ts[1..] == ts;
      }
    }
  }

  /** Collapsing whitespace a second time changes nothing. */
  lemma CollapseWhitespaceIdempotent(ts: seq<Tok>)
    ensures CollapseWhitespace(CollapseWhitespace(ts)) == CollapseWhitespace(ts)
  {
    var c := CollapseWhitespace(ts);
    CollapseWhitespaceFacts(ts);
    CollapseBlanksNoTabs(ts);
    CollapseNewlinesKeepsNoTabs(CollapseBlanks(ts));
    CollapseBlanksFixed(c);
    CollapseNewlinesFixed(c);
  }

  lemma {:induction false} SkCollapseBlanks(ts: seq<Tok>)
    ensures Sk(CollapseBlanks(ts)) == Sk(ts)
    decreases |ts|
  {
    if |ts| > 0 {
      if IsBlankTok(ts[0]) {
        var n := BlankRun(ts);
        BlankRunAll(ts);
        SkCollapseBlanks(ts[n..]);
        assert ts[..n] + ts[n..] == ts;
        SkDropWs(ts[..n], ts[n..]);
        SkConsCongruence(Ch(' '), Ch(' '), CollapseBlanks(ts[n..]), ts[n..]);
      } else {
        SkCollapseBlanks(ts[1..]);
        SkConsCongruence(ts[0], ts[0], CollapseBlanks(ts[1..]), ts[1..]);
        assert [ts[0]] + ts[1..] == ts;
      }
    }
  }

  lemma {:induction false} SkCollapseNewlines(ts: seq<Tok>)
    ensures Sk(CollapseNewlines(ts)) == Sk(ts)
    decreases |ts|
  {
    if |ts| > 0 {
      if |ts| >= 2 && ts[0] == Ch('\n') && ts[1] == Ch('\n') {
        var n := NewlineRun(ts);
        NewlineRunAll(ts);
        assert n == 1 + NewlineRun(ts[1..]) && NewlineRun(ts[1..]) >= 1;
        var rest := ts[n..];
        SkCollapseNewlines(rest);
        assert ts[..n] + rest == ts;
        SkDropWs(ts[..n], rest);
        SkDropWs([Ch('\n'), Ch('\n')], CollapseNewlines(rest));
        SkConsCongruence(Ch(' '), Ch(' '), CollapseNewlines(rest), rest);
      } else {
        SkCollapseNewlines(ts[1..]);
        SkConsCongruence(ts[0], ts[0], CollapseNewlines(ts[1..]), ts[1..]);
        assert [ts[0]] + ts[1..] == ts;
      }
    }
  }

  // ---------------------------------------------------------------------
  // The three passes of `ProtectMath`, undone one at a time

  function Stage1(s: string): Protected {
    ProtectPass(DisplayBracket, Chars(s), [])
  }

  function Stage2(s: string): Protected {
    ProtectPass(DisplayDollars, Stage1(s).toks, Stage1(s).blocks)
  }

  /** Each pass is undone by putting back the spans it took; the spans of each pass have span shape. */
  lemma StageFacts(s: string)
    ensures var p1, p2, p := Stage1(s), Stage2(s), ProtectMath(s);
      && |p1.blocks| <= |p2.blocks| <= |p.blocks|
      && p.blocks[..|p2.blocks|] == p2.blocks && p.blocks[..|p1.blocks|] == p1.blocks
      && Level(p.toks, p.blocks, |p2.blocks|) == p2.toks
      && Level(p2.toks, p2.blocks, |p1.blocks|) == p1.toks
      && Level(p1.toks, p1.blocks, 0) == Chars(s)
      && ShapedBelow(p.blocks, |p2.blocks|, |p2.blocks|)
      && ShapedBelow(p2.blocks, |p1.blocks|, |p1.blocks|)
      && ShapedBelow(p1.blocks, 0, 0)
  {
    var p1, p2, p := Stage1(s), Stage2(s), ProtectMath(s);
    assert WellFormed(Protected(Chars(s), []));
    ProtectPassSound(DisplayBracket, Chars(s), []);
    ProtectPassSound(DisplayDollars, p1.toks, p1.blocks);
    PassUndone(DisplayBracket, Chars(s), [], 0);
    PassSpansShaped(DisplayBracket, Chars(s), [], 0);
    PassUndone(DisplayDollars, p1.toks, p1.blocks, |p1.blocks|);
    PassSpansShaped(DisplayDollars, p1.toks, p1.blocks, |p1.blocks|);
    PassUndone(InlineDollar, p2.toks, p2.blocks, |p2.blocks|);
    PassSpansShaped(InlineDollar, p2.toks, p2.blocks, |p2.blocks|);
    assert p.blocks[..|p1.blocks|] == p.blocks[..|p2.blocks|][..|p1.blocks|];
  }

  /** All spans of `ProtectMath` have span shape. */
  lemma ProtectMathShaped(s: string)
    ensures ShapedFrom(ProtectMath(s).blocks, 0)
  {
    StageFacts(s);
    var p1, p2, p := Stage1(s), Stage2(s), ProtectMath(s);
    forall m | 0 <= m < |p.blocks| ensures SpanShaped(p.blocks[m]) {
      if m < |p1.blocks| {
        assert p.blocks[m] == p.blocks[..|p1.blocks|][m];
      } else if m < |p2.blocks| {
        assert p.blocks[m] == p.blocks[..|p2.blocks|][m];
      }
    }
  }

  /** Re-running the three passes over text with the skeleton of `p.toks`, spans put back. */
  lemma ReprotectPasses(s: string, y: seq<Tok>)
    requires Sk(y) == Sk(ProtectMath(s).toks)
    ensures var p1, p2, p := Stage1(s), Stage2(s), ProtectMath(s);
      var y2 := Level(y, p.blocks, |p2.blocks|);
      var y1 := Level(y2, p2.blocks, |p1.blocks|);
      && ProtectPass(InlineDollar, y2, p2.blocks) == Protected(y, p.blocks)
      && ProtectPass(DisplayDollars, y1, p1.blocks) == Protected(y2, p2.blocks)
      && ProtectPass(DisplayBracket, Level(y1, p1.blocks, 0), []) == Protected(y1, p1.blocks)
  {
    StageFacts(s);
    var p1, p2, p := Stage1(s), Stage2(s), ProtectMath(s);
    var n1, n2 := |p1.blocks|, |p2.blocks|;
    var y2 := Level(y, p.blocks, n2);
    var y1 := Level(y2, p2.blocks, n1);
    Rescan(InlineDollar, p.toks, y, p.blocks, n2, n2);
    SkLevel(p.toks, y, p.blocks, n2);
    assert p2.blocks[..n1] == p1.blocks;
    Rescan(DisplayDollars, p2.toks, y2, p2.blocks, n1, n1);
    SkLevel(p2.toks, y2, p2.blocks, n1);
    Rescan(DisplayBracket, p1.toks, y1, p1.blocks, 0, 0);
  }

  /**
   * Protecting the expansion of text with the skeleton of `ProtectMath(s).toks`
   * (for one, the collapsed text) finds the same spans and gives that text back.
   */
  lemma ReprotectSameSkeleton(s: string, y: seq<Tok>)
    requires Sk(y) == Sk(ProtectMath(s).toks)
    ensures ProtectMath(Expand(y, ProtectMath(s).blocks)) == Protected(y, ProtectMath(s).blocks)
    ensures Sk(Chars(Expand(y, ProtectMath(s).blocks))) == Sk(Chars(s))
  {
    StageFacts(s);
    ReprotectPasses(s, y);
    ProtectMathShaped(s);
    ProtectMathRoundTrip(s);
    var p1, p2, p := Stage1(s), Stage2(s), ProtectMath(s);
    var n1, n2 := |p1.blocks|, |p2.blocks|;
    RefsBelowSk(y, |p.blocks|);
    RefsBelowSk(p.toks, |p.blocks|);
    LevelCompose(y, p.blocks, n1, n2);
    LevelCompose(y, p.blocks, 0, n1);
    LevelZero(y, p.blocks);
    LevelZero(p.toks, p.blocks);
    SkLevel(y, p.toks, p.blocks, 0);
  }

  /** Texts whose characters have equal skeletons start and end with the same non-blank character. */
  lemma SameEnds(a: string, b: string)
    requires Sk(Chars(a)) == Sk(Chars(b))
    requires |b| > 0 ==> !IsSpace(b[0]) && !IsSpace(b[|b| - 1])
    ensures |a| > 0 ==> !IsSpace(a[0]) && !IsSpace(a[|a| - 1])
  {
    if |a| > 0 {
      SkHead(Chars(a));
      SkLast(Chars(a));
      if |b| > 0 {
        SkHead(Chars(b));
        SkLast(Chars(b));
      }
    }
  }

  // ---------------------------------------------------------------------
  // Normalising twice

  /**
   * Normalised text, protected again, gives back exactly the collapsed text
   * and the spans of the first run: no span appears, disappears or moves,
   * and the text between spans has no blank runs and no three newlines.
   */
  lemma NormalizeTexReprotect(content: string)
    ensures var p := ProtectMath(Strip(content));
      var q := ProtectMath(NormalizeTex(content));
      && q == Protected(CollapseWhitespace(p.toks), p.blocks)
      && Placeholders(q.toks) == Placeholders(p.toks)
      && NoBlankRuns(q.toks) && NoTripleNewlines(q.toks)
      && Expand(q.toks, q.blocks) == NormalizeTex(content)
  {
    var s := Strip(content);
    var p := ProtectMath(s);
    var c := CollapseWhitespace(p.toks);
    var z := Expand(c, p.blocks);
    SkCollapseBlanks(p.toks);
    SkCollapseNewlines(CollapseBlanks(p.toks));
    ReprotectSameSkeleton(s, c);
    SameEnds(z, s);
    StripUnchanged(z);
    CollapseWhitespaceFacts(p.toks);
  }

  /** `normalize_tex`, with nested spans restored, is idempotent. */
  lemma NormalizeIdempotent(content: string)
    ensures NormalizeTex(NormalizeTex(content)) == NormalizeTex(content)
  {
    var once := NormalizeTex(content);
    NormalizeTexReprotect(content);
    var q := ProtectMath(once);
    CollapseWhitespaceIdempotent(ProtectMath(Strip(content)).toks);
    StripUnchanged(once);
    assert CollapseWhitespace(q.toks) == q.toks;
  }

  /**
   * The normalisation as written is idempotent on content without nested
   * math: its output has the same spans, so it has no nested math either.
   */
  lemma NormalizeAsWrittenIdempotent(content: string)
    requires NoNestedMath(content)
    ensures NormalizeTexAsWritten(NormalizeTexAsWritten(content)) == NormalizeTexAsWritten(content)
  {
    var once := NormalizeTex(content);
    NoNestingAgree(content);
    NormalizeTexReprotect(content);
    StripUnchanged(once);
    assert NoNestedMath(once);
    NoNestingAgree(once);
    NormalizeIdempotent(content);
  }
}
