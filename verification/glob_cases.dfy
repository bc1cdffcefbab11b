/**
 * What the glob rewrite makes of the two shapes of pattern the notes
 * repository uses, a course directory with `**` below it and a bare file-name
 * glob, and which paths those patterns keep.
 */
module GlobCases {
  import opened Text
  import opened PathFilter

  lemma CharsAppend(a: string, b: string)
    ensures Chars(a + b) == Chars(a) + Chars(b)
  {
  }

  /** A stretch in which `w` never starts passes through the rewrite unchanged. */
  lemma {:induction false} ReplacePass(x: seq<Tok>, rest: seq<Tok>, w: string, rep: Tok)
    requires |w| > 0
    requires forall i :: 0 <= i < |x| ==> !LitsAt((x + rest)[i..], w)
    ensures Replace(x + rest, w, rep) == x + Replace(rest, w, rep)
    decreases |x|
  {
    if |x| == 0 {
      assert x + rest == rest;
    } else {
      assert (x + rest)[0..] == x + rest;
      assert (x + rest)[1..] == x[1..] + rest;
      forall i | 0 <= i < |x| - 1
        ensures !LitsAt((x[1..] + rest)[i..], w)
      {
        assert (x[1..] + rest)[i..] == (x + rest)[i + 1..];
      }
      ReplacePass(x[1..], rest, w, rep);
    }
  }

  /** A stretch in which `w` never starts is left as it is. */
  lemma ReplaceClear(x: seq<Tok>, w: string, rep: Tok)
    requires |w| > 0
    requires forall i :: 0 <= i < |x| ==> !LitsAt(x[i..], w)
    ensures Replace(x, w, rep) == x
  {
    assert x + [] == x;
    ReplacePass(x, [], w, rep);
  }

  /** The characters a pattern segment may not hold for the shape lemmas below. */
  predicate Plain(s: string) {
    '*' !in s && '?' !in s && '/' !in s
  }

  /** The tokens of a glob made of a directory, a slash, a double star, a slash, a star and an extension. */
  function TreeTokens(dir: string, ext: string): seq<Tok> {
    Chars(dir + "/") + [AnyDirs, Ch('*')] + Chars(ext)
  }

  /** The star and extension after the placeholder hold no further double star with a slash. */
  lemma StarExtClear(ext: string)
    requires Plain(ext) && |ext| > 0
    ensures Replace([Ch('*')] + Chars(ext), "**/", AnyDirs) == [Ch('*')] + Chars(ext)
  {
    var star := [Ch('*')] + Chars(ext);
    forall i | 0 <= i < |star|
      ensures !LitsAt(star[i..], "**/")
    {
      if i == 0 {
        assert star[1] == Ch(ext[0]);
      } else {
        assert star[i..][0] == Ch(ext[i - 1]);
      }
    }
    ReplaceClear(star, "**/", AnyDirs);
  }

  /** The course glob before any rewrite, cut where the rewrites will act. */
  lemma TreeChars(dir: string, ext: string)
    ensures Chars(dir + "/**/*" + ext) == Chars(dir + "/") + (Chars("**/") + ([Ch('*')] + Chars(ext)))
  {
    assert dir + "/**/*" + ext == (dir + "/") + ("**/" + ("*" + ext));
    CharsAppend("*", ext);
    CharsAppend("**/", "*" + ext);
    CharsAppend(dir + "/", "**/" + ("*" + ext));
  }

  /** No double star starts inside the directory part. */
  lemma DirPassesFirstRewrite(dir: string, tail: seq<Tok>)
    requires Plain(dir)
    ensures Replace(Chars(dir + "/") + tail, "**/", AnyDirs) == Chars(dir + "/") + Replace(tail, "**/", AnyDirs)
  {
    var d := Chars(dir + "/");
    forall i | 0 <= i < |d|
      ensures !LitsAt((d + tail)[i..], "**/")
    {
      assert (d + tail)[i..][0] == d[i];
    }
    ReplacePass(d, tail, "**/", AnyDirs);
  }

  /** The first rewrite takes the double star together with the slash after it. */
  lemma TreeFirstRewrite(dir: string, ext: string)
    requires Plain(dir) && Plain(ext) && |ext| > 0
    ensures Replace(Chars(dir + "/**/*" + ext), "**/", AnyDirs) == TreeTokens(dir, ext)
  {
    var star := [Ch('*')] + Chars(ext);
    var tail := Chars("**/") + star;
    TreeChars(dir, ext);
    DirPassesFirstRewrite(dir, tail);
    assert LitsAt(tail, "**/");
    assert tail[3..] == star;
    StarExtClear(ext);
  }

  /** In the rewritten course glob the only slash is followed by the placeholder. */
  lemma TreeHasNoSlashStars(dir: string, ext: string)
    requires Plain(dir) && Plain(ext)
    ensures Replace(TreeTokens(dir, ext), "/**", SlashAny) == TreeTokens(dir, ext)
  {
    var t := TreeTokens(dir, ext);
    forall i | 0 <= i < |t|
      ensures !LitsAt(t[i..], "/**")
    {
      if i < |dir| {
        assert t[i..][0] == Ch(dir[i]);
      } else if i == |dir| {
        assert t[i..][1] == AnyDirs;
      } else if i == |dir| + 1 {
        assert t[i..][0] == AnyDirs;
      } else if i == |dir| + 2 {
        assert t[i..][0] == Ch('*');
      } else {
        assert t[i..][0] == Ch(ext[i - |dir| - 3]);
      }
    }
    ReplaceClear(t, "/**", SlashAny);
  }

  /** In the rewritten course glob the one remaining star is followed by the extension. */
  lemma TreeHasNoStarPair(dir: string, ext: string)
    requires Plain(dir) && Plain(ext) && |ext| > 0
    ensures Replace(TreeTokens(dir, ext), "**", AnyText) == TreeTokens(dir, ext)
  {
    var t := TreeTokens(dir, ext);
    forall i | 0 <= i < |t|
      ensures !LitsAt(t[i..], "**")
    {
      if i < |dir| {
        assert t[i..][0] == Ch(dir[i]);
      } else if i == |dir| {
        assert t[i..][0] == Ch('/');
      } else if i == |dir| + 1 {
        assert t[i..][0] == AnyDirs;
      } else if i == |dir| + 2 {
        assert t[i..][1] == Ch(ext[0]);
      } else {
        assert t[i..][0] == Ch(ext[i - |dir| - 3]);
      }
    }
    ReplaceClear(t, "**", AnyText);
  }

  /** A course glob compiles to the directory's characters, the any-directories placeholder, a star and the extension. */
  lemma CompileTreeGlob(dir: string, ext: string)
    requires Plain(dir) && Plain(ext) && |ext| > 0
    ensures Compile(dir + "/**/*" + ext) == TreeTokens(dir, ext)
  {
    TreeFirstRewrite(dir, ext);
    TreeHasNoSlashStars(dir, ext);
    TreeHasNoStarPair(dir, ext);
  }

  /** The compiled course glob, cut after the directory's slash. */
  lemma TreeTokensSplit(dir: string, ext: string)
    ensures TreeTokens(dir, ext) == Chars(dir + "/") + ([AnyDirs] + ([Ch('*')] + Chars(ext)))
  {
  }

  lemma TopPathSplit(dir: string, stem: string, ext: string)
    ensures dir + "/" + stem + ext == (dir + "/") + (stem + ext)
  {
  }

  lemma NestedPathSplit(dir: string, dirs: string, stem: string, ext: string)
    ensures dir + "/" + dirs + "/" + stem + ext == (dir + "/") + (dirs + "/" + (stem + ext))
  {
  }

  /** A file directly in the course directory is kept … */
  lemma TreeGlobKeepsTopLevel(dir: string, ext: string, stem: string)
    requires Plain(dir) && Plain(ext) && '/' !in stem
    ensures Matches(TreeTokens(dir, ext), dir + "/" + stem + ext)
  {
    var star := [Ch('*')] + Chars(ext);
    TreeTokensSplit(dir, ext);
    TopPathSplit(dir, stem, ext);
    StarThenChars(ext, stem);
    AnyDirsMatchesNone(star, stem + ext);
    CharsMatch(dir + "/", [AnyDirs] + star, stem + ext);
  }

  /** … and so is one any number of directories further down. */
  lemma TreeGlobKeepsNested(dir: string, ext: string, dirs: string, stem: string)
    requires Plain(dir) && Plain(ext) && '/' !in stem && '\n' !in dirs
    ensures Matches(TreeTokens(dir, ext), dir + "/" + dirs + "/" + stem + ext)
  {
    var star := [Ch('*')] + Chars(ext);
    TreeTokensSplit(dir, ext);
    NestedPathSplit(dir, dirs, stem, ext);
    StarThenChars(ext, stem);
    AnyDirsMatchesSome(star, dirs, stem + ext);
    CharsMatch(dir + "/", [AnyDirs] + star, dirs + "/" + (stem + ext));
  }

  /** A path that does not start with the course directory's first letter is dropped. */
  lemma TreeGlobDropsOtherDir(dir: string, ext: string, path: string)
    requires Plain(dir) && |dir| > 0 && |path| > 0 && path[0] != dir[0]
    ensures !FullMatch(TreeTokens(dir, ext), path)
  {
    var rest := [AnyDirs, Ch('*')] + Chars(ext);
    assert TreeTokens(dir, ext) == Chars(dir + "/") + rest;
    CharsMismatch(dir + "/", rest, path);
    CharsMismatch(dir + "/", rest, path[..|path| - 1]);
  }

  /** A bare `*` glob with an extension compiles to a star and the extension's characters. */
  lemma CompileStarGlob(ext: string)
    requires Plain(ext) && |ext| > 0
    ensures Compile("*" + ext) == [Ch('*')] + Chars(ext)
  {
    var t := [Ch('*')] + Chars(ext);
    CharsAppend("*", ext);
    forall i | 0 <= i < |t|
      ensures !LitsAt(t[i..], "**/") && !LitsAt(t[i..], "/**") && !LitsAt(t[i..], "**")
    {
      if i == 0 {
        assert t[i..][1] == Ch(ext[0]);
      } else {
        assert t[i..][0] == Ch(ext[i - 1]);
      }
    }
    ReplaceClear(t, "**/", AnyDirs);
    ReplaceClear(t, "/**", SlashAny);
    ReplaceClear(t, "**", AnyText);
  }

  /** `*.tex` keeps a file at the top of the repository and drops one in a directory. */
  lemma StarGlobStaysAtTop(ext: string, stem: string, path: string)
    requires Plain(ext) && |ext| > 0 && '/' !in stem && '/' in path
    ensures Matches(Compile("*" + ext), stem + ext)
    ensures !Matches(Compile("*" + ext), path)
  {
    CompileStarGlob(ext);
    StarThenChars(ext, stem);
    var ts := [Ch('*')] + Chars(ext);
    assert WithinSegment(ts);
    if Matches(ts, path) {
      SegmentGlobMatchesNoSlash(ts, path);
    }
  }

  /** The case of the repository's own tests: the course glob keeps a chapter of the course and drops another course's notes. */
  lemma CourseGlobSelectsCourse()
    ensures var p := "math214" + "/**/*" + ".tex";
      FileMatches([p], "math214" + "/" + "ch1" + ".tex")
      && !FileMatches([p], "pde" + "/" + "notes" + ".tex")
  {
    var p := "math214" + "/**/*" + ".tex";
    StripStops(p, DotSlash());
    CompileTreeGlob("math214", ".tex");
    var good := "math214" + "/" + "ch1" + ".tex";
    StripStops(good, DotSlash());
    TreeGlobKeepsTopLevel("math214", ".tex", "ch1");
    assert FullMatch(Compile(StripLeading([p][0], DotSlash())), StripLeading(good, DotSlash()));
    var bad := "pde" + "/" + "notes" + ".tex";
    StripStops(bad, DotSlash());
    TreeGlobDropsOtherDir("math214", ".tex", bad);
  }
}
