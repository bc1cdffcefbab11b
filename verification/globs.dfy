/**
 * Path selection of commit/git_utils.py: the `.tex` suffix filter applied to
 * the changed files, and the glob patterns with `**` support that narrow the
 * list further. A glob is rewritten in the same order as the source rewrites
 * its text: first `**` followed by a slash, then a slash followed by `**`, then
 * a bare `**`; what remains is literal characters, `*` and `?`. Matching is
 * the language of the regular expression the source builds, anchored at both
 * ends.
 */
module PathFilter {
  import opened Text

  /**
   * One position of a rewritten glob: a character still to be read, or one
   * of the three double-star placeholders (`**` then slash: any directories;
   * slash then `**`: a slash and anything; bare `**`: anything).
   */
  datatype Tok = Ch(c: char) | AnyDirs | SlashAny | AnyText

  /** The glob text a token stands for. */
  function Spelling(t: Tok): string {
    match t
    case Ch(c) => [c]
    case AnyDirs => "**/"
    case SlashAny => "/**"
    case AnyText => "**"
  }

  function Spell(ts: seq<Tok>): (r: string)
    ensures |ts| <= |r|
  {
    if |ts| == 0 then [] else Spelling(ts[0]) + Spell(ts[1..])
  }

  lemma SpellAppend(a: seq<Tok>, b: seq<Tok>)
    ensures Spell(a + b) == Spell(a) + Spell(b)
  {
    if |a| > 0 {
      assert (a + b)[1..] == a[1..] + b;
    } else {
      assert a + b == b;
    }
  }

  /** The glob before any rewrite: every character a token of its own. */
  function Chars(p: string): (r: seq<Tok>)
    ensures |r| == |p|
    ensures forall i :: 0 <= i < |p| ==> r[i] == Ch(p[i])
  {
    seq(|p|, i requires 0 <= i < |p| => Ch(p[i]))
  }

  lemma SpellChars(p: string)
    ensures Spell(Chars(p)) == p
    decreases |p|
  {
    if |p| > 0 {
      assert Chars(p)[1..] == Chars(p[1..]);
      SpellChars(p[1..]);
    }
  }

  /** `ts` begins with the characters of `w`, each still a plain character. */
  predicate LitsAt(ts: seq<Tok>, w: string) {
    |w| <= |ts| && forall i :: 0 <= i < |w| ==> ts[i] == Ch(w[i])
  }

  lemma {:induction false} LitsAtSpell(ts: seq<Tok>, w: string)
    requires LitsAt(ts, w)
    ensures Spell(ts) == w + Spell(ts[|w|..])
    decreases |w|
  {
    if |w| > 0 {
      LitsAtTail(ts, w);
      LitsAtSpell(ts[1..], w[1..]);
      var rest := Spell(ts[|w|..]);
      assert Spell(ts) == [w[0]] + (w[1..] + rest);
      ConcatAssoc([w[0]], w[1..], rest);
      assert w == [w[0]] + w[1..];
    } else {
      assert ts[|w|..] == ts;
    }
  }

  lemma ConcatAssoc(a: string, b: string, c: string)
    ensures a + (b + c) == (a + b) + c
  {
  }

  lemma LitsAtTail(ts: seq<Tok>, w: string)
    requires |w| > 0 && LitsAt(ts, w)
    ensures |ts| > 0 && ts[0] == Ch(w[0]) && LitsAt(ts[1..], w[1..]) && ts[1..][|w| - 1..] == ts[|w|..]
  {
    forall i | 0 <= i < |w| - 1 ensures ts[1..][i] == Ch(w[1..][i]) {
      assert ts[i + 1] == Ch(w[i + 1]);
    }
  }

  /**
   * Python's `str.replace(w, …)` on the rewritten glob: leftmost,
   * non-overlapping occurrences of `w` among the plain characters become the
   * placeholder `rep`.
   */
  function Replace(ts: seq<Tok>, w: string, rep: Tok): (r: seq<Tok>)
    requires |w| > 0
    decreases |ts|
  {
    if |ts| == 0 then []
    else if LitsAt(ts, w) then [rep] + Replace(ts[|w|..], w, rep)
    else [ts[0]] + Replace(ts[1..], w, rep)
  }

  /** A rewrite loses no text: the placeholder spells what it replaced. */
  lemma {:induction false} ReplaceKeepsSpelling(ts: seq<Tok>, w: string, rep: Tok)
    requires |w| > 0 && Spelling(rep) == w
    ensures Spell(Replace(ts, w, rep)) == Spell(ts)
    decreases |ts|
  {
    if |ts| == 0 {
    } else if LitsAt(ts, w) {
      ReplaceKeepsSpelling(ts[|w|..], w, rep);
      SpellAppend([rep], Replace(ts[|w|..], w, rep));
      LitsAtSpell(ts, w);
    } else {
      ReplaceKeepsSpelling(ts[1..], w, rep);
      SpellAppend([ts[0]], Replace(ts[1..], w, rep));
    }
  }

  /** The first token of a rewrite is the placeholder or the first token. */
  lemma ReplaceHead(ts: seq<Tok>, w: string, rep: Tok)
    requires |w| > 0 && |ts| > 0
    ensures |Replace(ts, w, rep)| > 0
    ensures Replace(ts, w, rep)[0] == (if LitsAt(ts, w) then rep else ts[0])
  {
  }

  /** The three double-star rewrites, in the source's order. */
  function Compile(pattern: string): (r: seq<Tok>)
  {
    Replace(Replace(Replace(Chars(pattern), "**/", AnyDirs), "/**", SlashAny), "**", AnyText)
  }

  /** Rewriting never changes the glob's text, only how it is read. */
  lemma CompileSpellsPattern(pattern: string)
    ensures Spell(Compile(pattern)) == pattern
  {
    var t0 := Chars(pattern);
    var t1 := Replace(t0, "**/", AnyDirs);
    var t2 := Replace(t1, "/**", SlashAny);
    SpellChars(pattern);
    ReplaceKeepsSpelling(t0, "**/", AnyDirs);
    ReplaceKeepsSpelling(t1, "/**", SlashAny);
    ReplaceKeepsSpelling(t2, "**", AnyText);
  }

  /** After the bare `**` rewrite no two plain stars stand side by side. */
  predicate NoStarPair(ts: seq<Tok>) {
    forall i :: 0 <= i < |ts| - 1 ==> !(ts[i] == Ch('*') && ts[i + 1] == Ch('*'))
  }

  lemma {:induction false} ReplaceStarsLeavesNoPair(ts: seq<Tok>)
    ensures NoStarPair(Replace(ts, "**", AnyText))
    decreases |ts|
  {
    var r := Replace(ts, "**", AnyText);
    if |ts| == 0 {
    } else if LitsAt(ts, "**") {
      ReplaceStarsLeavesNoPair(ts[2..]);
      assert r == [AnyText] + Replace(ts[2..], "**", AnyText);
    } else {
      var rest := Replace(ts[1..], "**", AnyText);
      ReplaceStarsLeavesNoPair(ts[1..]);
      assert r == [ts[0]] + rest;
      if |ts| > 1 && ts[0] == Ch('*') {
        ReplaceHead(ts[1..], "**", AnyText);
        assert ts[1] != Ch('*');
        assert rest[0] != Ch('*');
      }
      assert forall i :: 1 <= i < |r| - 1 ==> r[i] == rest[i - 1] && r[i + 1] == rest[i];
    }
  }

  lemma CompiledHasNoStarPair(pattern: string)
    ensures NoStarPair(Compile(pattern))
  {
    ReplaceStarsLeavesNoPair(Replace(Replace(Chars(pattern), "**/", AnyDirs), "/**", SlashAny));
  }

  // The language of the regular expression a rewritten glob stands for:
  // `*` is `[^/]*`, `?` is `[^/]`, the three placeholders are `(.*/)?`,
  // `(/.*)?` and `.*`, and every other character is itself. The regex `.`
  // does not match a line feed.
  predicate Matches(ts: seq<Tok>, s: string)
    decreases |ts|
  {
    if |ts| == 0 then |s| == 0
    else match ts[0]
      case Ch(c) =>
        if c == '*' then exists k :: 0 <= k <= |s| && '/' !in s[..k] && Matches(ts[1..], s[k..])
        else if c == '?' then |s| > 0 && s[0] != '/' && Matches(ts[1..], s[1..])
        else |s| > 0 && s[0] == c && Matches(ts[1..], s[1..])
      case AnyDirs =>
        Matches(ts[1..], s)
        || exists k :: 0 <= k < |s| && s[k] == '/' && '\n' !in s[..k] && Matches(ts[1..], s[k + 1..])
      case SlashAny =>
        Matches(ts[1..], s)
        || (|s| > 0 && s[0] == '/'
            && exists k :: 1 <= k <= |s| && '\n' !in s[1..k] && Matches(ts[1..], s[k..]))
      case AnyText =>
        exists k :: 0 <= k <= |s| && '\n' !in s[..k] && Matches(ts[1..], s[k..])
  }

  /** `re.match` with `^…$`: `$` also matches before one final line feed. */
  predicate FullMatch(ts: seq<Tok>, s: string) {
    Matches(ts, s) || (|s| > 0 && s[|s| - 1] == '\n' && Matches(ts, s[..|s| - 1]))
  }

  /** Tokens that never reach past a path separator. */
  predicate WithinSegment(ts: seq<Tok>) {
    forall i :: 0 <= i < |ts| ==> ts[i].Ch? && ts[i].c != '/'
  }

  /** `*` and `?` stay inside one path segment: without `**` and `/` in the glob, no match contains a slash. */
  lemma {:induction false} SegmentGlobMatchesNoSlash(ts: seq<Tok>, s: string)
    requires WithinSegment(ts) && Matches(ts, s)
    ensures '/' !in s
    decreases |ts|
  {
    if |ts| > 0 {
      assert WithinSegment(ts[1..]);
      var c := ts[0].c;
      if c == '*' {
        var k :| 0 <= k <= |s| && '/' !in s[..k] && Matches(ts[1..], s[k..]);
        SegmentGlobMatchesNoSlash(ts[1..], s[k..]);
        assert s == s[..k] + s[k..];
      } else {
        SegmentGlobMatchesNoSlash(ts[1..], s[1..]);
        assert s == [s[0]] + s[1..];
      }
    }
  }

  /** `**` followed by a slash matches zero directories … */
  lemma AnyDirsMatchesNone(rest: seq<Tok>, s: string)
    requires Matches(rest, s)
    ensures Matches([AnyDirs] + rest, s)
  {
    assert ([AnyDirs] + rest)[1..] == rest;
  }

  /** … and any run of directories, each ending in a slash. */
  lemma AnyDirsMatchesSome(rest: seq<Tok>, dirs: string, s: string)
    requires '\n' !in dirs && Matches(rest, s)
    ensures Matches([AnyDirs] + rest, dirs + "/" + s)
  {
    var whole := dirs + "/" + s;
    assert ([AnyDirs] + rest)[1..] == rest;
    assert whole[|dirs|] == '/';
    assert whole[..|dirs|] == dirs;
    assert whole[|dirs| + 1..] == s;
  }

  /** Plain characters match only themselves. */
  lemma CharsMatch(w: string, rest: seq<Tok>, s: string)
    requires '*' !in w && '?' !in w
    ensures Matches(Chars(w) + rest, w + s) <==> Matches(rest, s)
    decreases |w|
  {
    if |w| > 0 {
      assert (Chars(w) + rest)[1..] == Chars(w[1..]) + rest;
      assert (w + s)[1..] == w[1..] + s;
      CharsMatch(w[1..], rest, s);
    } else {
      assert Chars(w) + rest == rest;
      assert w + s == s;
    }
  }

  /** A plain first character that differs from the path's rules out a match. */
  lemma CharsMismatch(w: string, rest: seq<Tok>, s: string)
    requires |w| > 0 && w[0] != '*' && w[0] != '?' && (|s| == 0 || s[0] != w[0])
    ensures !Matches(Chars(w) + rest, s)
  {
    assert (Chars(w) + rest)[0] == Ch(w[0]);
  }

  /** A `*` followed by plain characters matches any slash-free stem before them. */
  lemma StarThenChars(w: string, stem: string)
    requires '*' !in w && '?' !in w && '/' !in stem
    ensures Matches([Ch('*')] + Chars(w), stem + w)
  {
    var ts := [Ch('*')] + Chars(w);
    var s := stem + w;
    assert ts[1..] == Chars(w) + [];
    assert s[..|stem|] == stem;
    assert s[|stem|..] == w + [];
    CharsMatch(w, [], []);
  }

  /** Python's `str.lstrip(chars)`: drops every leading character of the set, in any order. */
  function StripLeading(s: string, cs: set<char>): (r: string)
    ensures |r| <= |s| && r == s[|s| - |r|..]
    ensures forall i :: 0 <= i < |s| - |r| ==> s[i] in cs
    ensures |r| > 0 ==> r[0] !in cs
    decreases |s|
  {
    if |s| > 0 && s[0] in cs then StripLeading(s[1..], cs) else s
  }

  function DotSlash(): set<char> { {'.', '/'} }

  /** The set is a set of characters, not a prefix: any mix of them is dropped. */
  lemma {:induction false} StripDropsSetPrefix(pre: string, s: string, cs: set<char>)
    requires forall i :: 0 <= i < |pre| ==> pre[i] in cs
    ensures StripLeading(pre + s, cs) == StripLeading(s, cs)
    decreases |pre|
  {
    if |pre| > 0 {
      assert (pre + s)[1..] == pre[1..] + s;
      StripDropsSetPrefix(pre[1..], s, cs);
    } else {
      assert pre + s == s;
    }
  }

  /** A leading `../` goes as a whole … */
  lemma StripParent(name: string)
    requires |name| > 0 && name[0] != '.' && name[0] != '/'
    ensures StripLeading("../" + name, DotSlash()) == name
  {
    StripDropsSetPrefix("../", name, DotSlash());
    StripStops(name, DotSlash());
  }

  /** … and so does the dot that marks a hidden directory. */
  lemma StripHiddenDot(dir: string)
    requires |dir| > 0 && dir[0] != '.' && dir[0] != '/'
    ensures StripLeading("." + dir, DotSlash()) == dir
  {
    StripDropsSetPrefix(".", dir, DotSlash());
    StripStops(dir, DotSlash());
  }

  lemma StripStops(s: string, cs: set<char>)
    requires |s| > 0 && s[0] !in cs
    ensures StripLeading(s, cs) == s
  {
  }

  /** Path `f` matches at least one of the patterns, both stripped of leading dots and slashes. */
  predicate FileMatches(patterns: seq<string>, f: string) {
    exists j :: 0 <= j < |patterns|
      && FullMatch(Compile(StripLeading(patterns[j], DotSlash())), StripLeading(f, DotSlash()))
  }

  /** `a` is `b` with some elements left out, order kept. */
  predicate IsSubsequence<T(==)>(a: seq<T>, b: seq<T>)
    decreases |b|
  {
    if |a| == 0 then true
    else if |b| == 0 then false
    else
      var pairsLast := a[|a| - 1] == b[|b| - 1] && IsSubsequence(a[..|a| - 1], b[..|b| - 1]);
      pairsLast || IsSubsequence(a, b[..|b| - 1])
  }

  /** The elements of `xs` that satisfy `keep`, in order, with their repetitions. */
  function Keep(xs: seq<string>, keep: string -> bool): (r: seq<string>)
    ensures forall x :: x in r <==> x in xs && keep(x)
    ensures forall x :: multiset(r)[x] == if keep(x) then multiset(xs)[x] else 0
    ensures IsSubsequence(r, xs)
    decreases |xs|
  {
    if |xs| == 0 then []
    else
      var init := xs[..|xs| - 1];
      var last := xs[|xs| - 1];
      assert xs == init + [last];
      var prefix := Keep(init, keep);
      if keep(last) then
        var r := prefix + [last];
        assert r[..|r| - 1] == prefix;
        r
      else
        prefix
  }

  /** The patterns as the source compiles them, each stripped of leading dots and slashes. */
  function CompileAll(patterns: seq<string>): (r: seq<seq<Tok>>)
    ensures |r| == |patterns|
    ensures forall j :: 0 <= j < |patterns| ==> r[j] == Compile(StripLeading(patterns[j], DotSlash()))
  {
    seq(|patterns|, j requires 0 <= j < |patterns| => Compile(StripLeading(patterns[j], DotSlash())))
  }

  /** The inner loop: does any compiled pattern match, stopping at the first that does. */
  method AnyMatches(compiled: seq<seq<Tok>>, path: string) returns (found: bool)
    ensures found <==> exists q :: 0 <= q < |compiled| && FullMatch(compiled[q], path)
  {
    found := false;
    var j := 0;
    while j < |compiled| && !found
      invariant 0 <= j <= |compiled|
      invariant found <==> exists q :: 0 <= q < j && FullMatch(compiled[q], path)
    {
      if FullMatch(compiled[j], path) {
        found := true;
      }
      j := j + 1;
    }
  }

  /**
   * The loop of `_filter_by_patterns`: with no patterns every file is kept;
   * otherwise each file is kept once, at its first matching pattern.
   */
  method FilterByPatterns(files: seq<string>, patterns: seq<string>) returns (r: seq<string>)
    ensures |patterns| == 0 ==> r == files
    ensures |patterns| > 0 ==> r == Keep(files, Matching(patterns))
    ensures |patterns| > 0 ==> forall f :: f in r <==> f in files && FileMatches(patterns, f)
  {
    if |patterns| == 0 {
      return files;
    }
    r := FilterCompiled(files, patterns, CompileAll(patterns));
  }

  /** The files a non-empty pattern list keeps, as a filter. */
  function Matching(patterns: seq<string>): string -> bool {
    f => FileMatches(patterns, f)
  }

  /** The outer loop over the files, with the patterns compiled once. */
  method FilterCompiled(files: seq<string>, patterns: seq<string>, compiled: seq<seq<Tok>>) returns (r: seq<string>)
    requires compiled == CompileAll(patterns)
    ensures r == Keep(files, Matching(patterns))
  {
    r := [];
    var i := 0;
    while i < |files|
      invariant 0 <= i <= |files|
      invariant r == Keep(files[..i], Matching(patterns))
    {
      var found := MatchesCompiled(patterns, compiled, files[i]);
      KeepPrefixStep(files, i, Matching(patterns));
      if found {
        r := r + [files[i]];
      }
      i := i + 1;
    }
    assert files[..|files|] == files;
  }

  /** One file of the outer loop: kept when some compiled pattern matches it. */
  method MatchesCompiled(patterns: seq<string>, compiled: seq<seq<Tok>>, f: string) returns (found: bool)
    requires compiled == CompileAll(patterns)
    ensures found == Matching(patterns)(f)
  {
    found := AnyMatches(compiled, StripLeading(f, DotSlash()));
    CompiledMatches(patterns, f);
  }

  /** Trying the compiled patterns in turn decides `FileMatches`. */
  lemma CompiledMatches(patterns: seq<string>, f: string)
    ensures var compiled := CompileAll(patterns);
      (exists q :: 0 <= q < |compiled| && FullMatch(compiled[q], StripLeading(f, DotSlash())))
      <==> FileMatches(patterns, f)
  {
    var compiled := CompileAll(patterns);
    if FileMatches(patterns, f) {
      var j :| 0 <= j < |patterns| && FullMatch(Compile(StripLeading(patterns[j], DotSlash())), StripLeading(f, DotSlash()));
      assert FullMatch(compiled[j], StripLeading(f, DotSlash()));
    }
  }

  lemma KeepPrefixStep(xs: seq<string>, i: nat, keep: string -> bool)
    requires i < |xs|
    ensures Keep(xs[..i + 1], keep) == Keep(xs[..i], keep) + (if keep(xs[i]) then [xs[i]] else [])
  {
    assert xs[..i + 1][..i] == xs[..i];
  }

  /** `get_changed_files`: the changed `.tex` files, narrowed by the patterns when there are any. */
  function ChangedTexFiles(changed: seq<string>, patterns: seq<string>): (r: seq<string>)
    ensures forall f :: f in r <==>
      f in changed && EndsWith(f, ".tex") && (|patterns| == 0 || FileMatches(patterns, f))
    ensures IsSubsequence(r, changed)
  {
    var tex := Keep(changed, f => EndsWith(f, ".tex"));
    if |patterns| > 0 then
      var r := Keep(tex, Matching(patterns));
      SubsequenceTrans(r, tex, changed);
      r
    else
      tex
  }

  /** Extending the longer sequence at its end keeps a subsequence one. */
  lemma SubsequenceWeaken<T>(a: seq<T>, b0: seq<T>, b: seq<T>)
    requires |b| > 0 && b0 == b[..|b| - 1] && IsSubsequence(a, b0)
    ensures IsSubsequence(a, b)
  {
  }

  lemma {:induction false} SubsequenceTrans<T>(a: seq<T>, b: seq<T>, c: seq<T>)
    requires IsSubsequence(a, b) && IsSubsequence(b, c)
    ensures IsSubsequence(a, c)
    decreases |c|, |b|
  {
    if |a| == 0 {
    } else {
      assert |b| > 0 && |c| > 0;
      var b0 := b[..|b| - 1];
      var c0 := c[..|c| - 1];
      if b[|b| - 1] == c[|c| - 1] && IsSubsequence(b0, c0) {
        if a[|a| - 1] == b[|b| - 1] && IsSubsequence(a[..|a| - 1], b0) {
          SubsequenceTrans(a[..|a| - 1], b0, c0);
        } else {
          SubsequenceTrans(a, b0, c0);
          SubsequenceWeaken(a, c0, c);
        }
      } else {
        SubsequenceTrans(a, b, c0);
        SubsequenceWeaken(a, c0, c);
      }
    }
  }
}
