/**
 * Concrete behaviour of the LaTeX safety layer: the command string of the
 * repository's own security test, the two examples of the sanitizer's
 * documentation, and a text on which one pass of deletions puts a shell
 * command together instead of removing it.
 */
module LatexSafetyCases {
  import opened Text
  import opened LatexSafety

  /**
   * The check as written calls `\write18` followed by any argument safe when
   * the argument holds no backslash and no shell flag; the command string
   * of the security test, `\write18{rm -rf /} and $x^2$`, is one of them.
   */
  lemma {:induction false} AsWrittenCallsShellCommandSafe(arg: string)
    requires '\\' !in arg && NoFlagStart(arg)
    ensures IsSafeLatex(AsWritten, "\\write18" + arg)
  {
    var s := "\\write18" + arg;
    assert forall i :: 8 <= i < |s| ==> s[i] == arg[i - 8];
    assert forall i :: 0 <= i < 8 ==> s[i] == "\\write18"[i];
    forall i | 0 <= i < |s| - 1 && s[i] == '\\'
      ensures s[i + 1] != '\\'
    {
    }
    forall i | 0 <= i < |s| - 1 && s[i] == '-'
      ensures s[i + 1] != '-' && LowerChar(s[i + 1]) != 's'
    {
      assert i >= 8;
    }
    AsWrittenPassesControlWords(s);
  }

  /** Text without capitals is its own lower-case form. */
  lemma LowerOfLowercase(w: string)
    requires forall i :: 0 <= i < |w| ==> !('A' <= w[i] <= 'Z')
    ensures Lower(w) == w
  {
  }

  lemma LowerWrite18()
    ensures Lower("\\write18") == "\\write18"
  {
    LowerOfLowercase("\\write18");
  }

  lemma Write18AtStart(rest: string)
    ensures OccursAt(Lower("\\write18" + rest), 0, "\\" + CommandNames[0])
  {
    LowerWrite18();
    LowerAppend("\\write18", rest);
  }

  /** The intended check rejects `\write18` followed by anything. */
  lemma IntendedRejectsShellCommand(arg: string)
    ensures !IsSafeLatex(Intended, "\\write18" + arg)
  {
    Write18AtStart(arg);
    IntendedCatchesControlWord("\\write18" + arg, 0, 0);
  }

  // ---------------------------------------------------------------------
  // Passes that find nothing.
  // ---------------------------------------------------------------------

  lemma CommandPassesAppend(a: seq<string>, b: seq<string>)
    ensures CommandPasses(a + b) == CommandPasses(a) + CommandPasses(b)
    decreases |a|
  {
    if |a| > 0 {
      assert (a + b)[1..] == a[1..] + b;
      CommandPassesAppend(a[1..], b);
    } else {
      assert a + b == b;
    }
  }

  /** A control word can only start at a backslash whose next letter is its first. */
  lemma HeadNeedsInitial(t: string, n: string)
    requires |n| > 0 && HeadIs(t, "\\" + n)
    ensures t[0] == '\\' && LowerChar(t[1]) == n[0]
  {
    HeadIsChar(t, "\\" + n, 0);
    HeadIsChar(t, "\\" + n, 1);
  }

  /** No backslash of `s` is followed by the first letter of `n`. */
  predicate InitialAbsent(s: string, n: string) {
    |n| > 0 && forall i :: 0 <= i < |s| - 1 && s[i] == '\\' ==> LowerChar(s[i + 1]) != n[0]
  }

  /** Command `n` starts nowhere in `s`. */
  predicate CommandAbsent(s: string, n: string) {
    forall i :: 0 <= i < |s| ==> !HeadIs(s[i..], "\\" + n)
  }

  lemma {:induction false} AbsentByInitial(s: string, n: string)
    requires InitialAbsent(s, n)
    ensures CommandAbsent(s, n)
  {
    forall i | 0 <= i < |s|
      ensures !HeadIs(s[i..], "\\" + n)
    {
      if HeadIs(s[i..], "\\" + n) {
        HeadNeedsInitial(s[i..], n);
        assert false;
      }
    }
  }

  lemma {:induction false} CommandPassesMiss(s: string, n: string)
    requires CommandAbsent(s, n)
    ensures Misses(Braced(n), s) && Misses(Bracketed(n), s) && Misses(Bare(n), s)
  {
    forall i | 0 <= i < |s|
      ensures MatchLen(Braced(n), s[i..]) == 0 && MatchLen(Bracketed(n), s[i..]) == 0
      ensures MatchLen(Bare(n), s[i..]) == 0
    {
      assert !HeadIs(s[i..], "\\" + n);
    }
  }

  /** The deletions for a list of commands, none of which occurs, change nothing. */
  lemma {:induction false} AbsentCommandsKeep(names: seq<string>, s: string)
    requires forall k :: 0 <= k < |names| ==> CommandAbsent(s, names[k])
    ensures Sanitize(CommandPasses(names), s) == s
    decreases |names|
  {
    if |names| > 0 {
      CommandPassesMiss(s, names[0]);
      var first := [Braced(names[0]), Bracketed(names[0]), Bare(names[0])];
      SanitizeKeepsClean(first, s);
      SanitizeAppend(first, CommandPasses(names[1..]), s);
      assert forall k :: 0 <= k < |names| - 1 ==> names[1..][k] == names[k + 1];
      AbsentCommandsKeep(names[1..], s);
    }
  }

  /** Where no hyphen starts a shell flag, no flag is deleted. */
  lemma {:induction false} FlagsKeep(s: string)
    requires NoFlagStart(s)
    ensures Sanitize(FlagPasses(ShellEscapeFlags), s) == s
  {
    var ps := FlagPasses(ShellEscapeFlags);
    forall j, i | 0 <= j < |ps| && 0 <= i < |s|
      ensures MatchLen(ps[j], s[i..]) == 0
    {
      var f := ShellEscapeFlags[j];
      if HeadIs(s[i..], f) {
        HeadIsChar(s[i..], f, 0);
        HeadIsChar(s[i..], f, 1);
        assert false;
      }
    }
    SanitizeKeepsClean(ps, s);
  }

  /** The deletions for a list of commands, cut after the first `k` names. */
  lemma SplitCommandPasses(names: seq<string>, k: nat)
    requires k <= |names|
    ensures CommandPasses(names) == CommandPasses(names[..k]) + CommandPasses(names[k..])
  {
    assert names == names[..k] + names[k..];
    CommandPassesAppend(names[..k], names[k..]);
  }

  lemma NamesNonEmpty()
    ensures forall k :: 0 <= k < |CommandNames| ==> |CommandNames[k]| > 0
  {
  }

  /** `c` after a backslash starts none of the dangerous command names. */
  predicate StartsNoCommand(c: char) {
    forall k :: 0 <= k < |CommandNames| ==> LowerChar(c) != CommandNames[k][0]
  }

  /**
   * Text in which no backslash is followed by the first letter of a dangerous
   * command and no hyphen starts a shell flag passes the sanitizer unchanged;
   * the documented example `$x^2$ is \textbf{important}` is such a text.
   */
  lemma HarmlessTextKept(s: string)
    requires NoFlagStart(s)
    requires forall i :: 0 <= i < |s| - 1 && s[i] == '\\' ==> StartsNoCommand(s[i + 1])
    ensures StripDangerousLatex(s) == s
  {
    FlagsKeep(s);
    NamesNonEmpty();
    forall k | 0 <= k < |CommandNames|
      ensures CommandAbsent(s, CommandNames[k])
    {
      AbsentByInitial(s, CommandNames[k]);
    }
    AbsentCommandsKeep(CommandNames, s);
    SanitizeAppend(FlagPasses(ShellEscapeFlags), CommandPasses(CommandNames), s);
  }

  // ---------------------------------------------------------------------
  // Deletions that take a whole match, and one that builds a command.
  // ---------------------------------------------------------------------

  lemma {:induction false} SanitizeEmpty(ps: seq<Pass>)
    ensures Sanitize(ps, "") == ""
    decreases |ps|
  {
    if |ps| > 0 {
      SanitizeEmpty(ps[1..]);
    }
  }

  /** A stretch at which a deletion never matches is copied through. */
  lemma {:induction false} SubAllKeepsPrefix(x: string, rest: string, m: string -> nat)
    requires forall i :: 0 <= i < |x| ==> m((x + rest)[i..]) == 0
    ensures SubAll(x + rest, m, "") == x + SubAll(rest, m, "")
    decreases |x|
  {
    if |x| == 0 {
      assert x + rest == rest;
    } else {
      assert (x + rest)[0..] == x + rest;
      assert (x + rest)[1..] == x[1..] + rest;
      forall i | 0 <= i < |x| - 1
        ensures m((x[1..] + rest)[i..]) == 0
      {
        assert (x[1..] + rest)[i..] == (x + rest)[i + 1..];
      }
      SubAllKeepsPrefix(x[1..], rest, m);
    }
  }

  /** Text without a backslash holds no command. */
  lemma NoBackslashNoCommand(s: string, n: string)
    requires '\\' !in s
    ensures CommandAbsent(s, n)
  {
    forall i | 0 <= i < |s|
      ensures !HeadIs(s[i..], "\\" + n)
    {
      if HeadIs(s[i..], "\\" + n) {
        assert false;
      }
    }
  }

  lemma CommandPassesUnfold(names: seq<string>)
    requires |names| > 0
    ensures CommandPasses(names) == [Braced(names[0]), Bracketed(names[0]), Bare(names[0])] + CommandPasses(names[1..])
  {
  }

  /** The first deletion, `\write18` with a braced argument, is the first command pass. */
  lemma FirstCommandPass()
    ensures CommandPasses(CommandNames) == [Braced("write18"), Bracketed("write18"), Bare("write18")] + CommandPasses(CommandNames[1..])
  {
    CommandPassesUnfold(CommandNames);
  }

  /** A deletion that matches the whole text leaves nothing. */
  lemma WholeMatchDeleted(s: string, m: string -> nat)
    requires 0 < |s| && m(s) == |s|
    ensures SubAll(s, m, "") == ""
  {
    assert s[|s|..] == "";
  }

  /** A deletion that matches at the start removes the match and carries on after it. */
  lemma SubAllAtMatch(s: string, m: string -> nat)
    requires 0 < m(s) <= |s|
    ensures SubAll(s, m, "") == SubAll(s[m(s)..], m, "")
  {
  }

  lemma SanitizeStep(p: Pass, rest: seq<Pass>, s: string)
    ensures Sanitize([p] + rest, s) == Sanitize(rest, SubAll(s, Matcher(p), ""))
  {
    assert ([p] + rest)[1..] == rest;
  }

  /** On text in which no hyphen starts a shell flag, only the command passes act. */
  lemma OnlyCommandPassesAct(s: string)
    requires NoFlagStart(s)
    ensures StripDangerousLatex(s) == Sanitize(CommandPasses(CommandNames), s)
  {
    FlagsKeep(s);
    SanitizeAppend(FlagPasses(ShellEscapeFlags), CommandPasses(CommandNames), s);
  }

  /** The three passes for `\write18`. */
  function ShellCommandPasses(): seq<Pass> {
    [Braced("write18"), Bracketed("write18"), Bare("write18")]
  }

  /** Once the passes for `\write18` delete everything, nothing is left. */
  lemma ShellPassesLeaveNothing(s: string)
    requires NoFlagStart(s)
    requires Sanitize(ShellCommandPasses(), s) == ""
    ensures StripDangerousLatex(s) == ""
  {
    OnlyCommandPassesAct(s);
    FirstCommandPass();
    SanitizeAppend(ShellCommandPasses(), CommandPasses(CommandNames[1..]), s);
    SanitizeEmpty(CommandPasses(CommandNames[1..]));
  }

  /** A braced `\write18` whose argument holds no closing brace is one match of the first command pass. */
  lemma BracedShellCommandLength(body: string)
    requires '}' !in body
    ensures MatchLen(Braced("write18"), "\\write18{" + body + "}") == |body| + 10
  {
    var t := "\\write18{" + body + "}";
    assert t[..8] == "\\write18";
    LowerWrite18();
    assert HeadIs(t, "\\write18");
    var rest := t[8..];
    assert rest[0] == '{' && !IsSpace(rest[0]);
    assert LeadingSpaces(rest) == 0;
    var close := (i: nat) => i < |t| && t[i] == '}';
    assert close(|t| - 1);
    forall i | 9 <= i < |t| - 1
      ensures !close(i)
    {
      assert t[i] == body[i - 9];
    }
  }

  /**
   * The first documented example: `\write18{rm -rf /}` is deleted whole. Any
   * braced `\write18` whose argument holds no closing brace and starts no
   * shell flag leaves nothing behind.
   */
  lemma ShellCommandRemoved(body: string)
    requires '}' !in body && NoFlagStart(body)
    ensures StripDangerousLatex("\\write18{" + body + "}") == ""
  {
    var t := "\\write18{" + body + "}";
    forall i | 0 <= i < |t| - 1 && t[i] == '-'
      ensures t[i + 1] != '-' && LowerChar(t[i + 1]) != 's'
    {
      assert 9 <= i;
      if i + 1 < |t| - 1 {
        assert t[i] == body[i - 9] && t[i + 1] == body[i - 8];
      }
    }
    BracedShellCommandLength(body);
    WholeMatchDeleted(t, Matcher(Braced("write18")));
    SanitizeStep(Braced("write18"), ShellCommandPasses()[1..], t);
    SanitizeEmpty(ShellCommandPasses()[1..]);
    ShellPassesLeaveNothing(t);
  }

  /** The braced `\def` pass cannot match where the first two characters are not a backslash and a `d`. */
  lemma DefMissesAt(t: string)
    requires |t| >= 2 && !(t[0] == '\\' && LowerChar(t[1]) == 'd')
    ensures Matcher(Braced("def"))(t) == 0
  {
    if HeadIs(t, "\\def") {
      HeadIsChar(t, "\\def", 0);
      HeadIsChar(t, "\\def", 1);
      assert false;
    }
  }

  /** The braced `\def` pass never matches inside `x` when no backslash of `x` is followed by `d`. */
  lemma {:induction false} DefMissesPrefix(x: string, rest: string)
    requires InitialAbsent(x, "def") && |rest| > 0 && rest[0] == '\\'
    ensures SubAll(x + rest, Matcher(Braced("def")), "") == x + SubAll(rest, Matcher(Braced("def")), "")
  {
    var m := Matcher(Braced("def"));
    forall i | 0 <= i < |x|
      ensures m((x + rest)[i..]) == 0
    {
      var t := (x + rest)[i..];
      assert |t| >= 2 && t[0] == x[i];
      if i + 1 < |x| {
        assert t[1] == x[i + 1];
      } else {
        assert t[1] == rest[0];
      }
      DefMissesAt(t);
    }
    SubAllKeepsPrefix(x, rest, m);
  }

  /** `\def{}` at the start of a text is one match of six characters. */
  lemma DefCallMatched(y: string)
    ensures MatchLen(Braced("def"), "\\def{}" + y) == 6
  {
    var rest := "\\def{}" + y;
    assert rest[..4] == "\\def";
    LowerOfLowercase("\\def");
    assert rest[4..][0] == '{';
    assert LeadingSpaces(rest[4..]) == 0;
  }

  /**
   * Deleting a braced `\def{}` between `x` and `y` joins them: when no
   * backslash of `x` is followed by `d` and `y` holds no backslash, the
   * `\def` pass leaves exactly `x + y`.
   */
  lemma DefDeletionJoins(x: string, y: string)
    requires InitialAbsent(x, "def") && '\\' !in y
    ensures SubAll(x + "\\def{}" + y, Matcher(Braced("def")), "") == x + y
  {
    var m := Matcher(Braced("def"));
    var rest := "\\def{}" + y;
    assert x + "\\def{}" + y == x + rest;
    DefMissesPrefix(x, rest);
    assert SubAll(rest, m, "") == y by {
      DefCallMatched(y);
      SubAllAtMatch(rest, m);
      assert rest[6..] == y;
      NoBackslashNoCommand(y, "def");
      CommandPassesMiss(y, "def");
      DeletionMisses(Braced("def"), y);
    }
  }

  /** The passes from `\def` onwards leave a text in which none of their commands occurs. */
  lemma LaterCommandsKeep(t: string)
    requires forall k :: 3 <= k < |CommandNames| ==> CommandAbsent(t, CommandNames[k])
    ensures Sanitize(CommandPasses(CommandNames[3..]), t) == t
  {
    forall k | 0 <= k < |CommandNames[3..]|
      ensures CommandAbsent(t, CommandNames[3..][k])
    {
      assert CommandNames[3..][k] == CommandNames[k + 3];
    }
    AbsentCommandsKeep(CommandNames[3..], t);
  }

  /**
   * One round of the source's deletions on `x\def{}y`, where none of the
   * commands deleted before `\def` occurs and none deleted after it occurs in
   * `x + y`, yields `x + y`: the commands are never looked for again once
   * `\def` has been removed.
   */
  lemma {:induction false} SinglePassJoins(x: string, y: string)
    requires NoFlagStart(x + "\\def{}" + y)
    requires forall k :: 0 <= k < 3 ==> CommandAbsent(x + "\\def{}" + y, CommandNames[k])
    requires InitialAbsent(x, "def") && '\\' !in y
    requires forall k :: 3 <= k < |CommandNames| ==> CommandAbsent(x + y, CommandNames[k])
    ensures StripDangerousLatex(x + "\\def{}" + y) == x + y
  {
    FirstThreeKeep(x + "\\def{}" + y);
    LaterPassesJoin(x, y);
  }

  /** Where none of the first three commands occurs, only the passes from `\def` onwards act. */
  lemma FirstThreeKeep(s: string)
    requires NoFlagStart(s)
    requires forall k :: 0 <= k < 3 ==> CommandAbsent(s, CommandNames[k])
    ensures StripDangerousLatex(s) == Sanitize(CommandPasses(CommandNames[3..]), s)
  {
    OnlyCommandPassesAct(s);
    SplitCommandPasses(CommandNames, 3);
    AbsentCommandsKeep(CommandNames[..3], s);
    SanitizeAppend(CommandPasses(CommandNames[..3]), CommandPasses(CommandNames[3..]), s);
  }

  /** The passes from `\def` onwards delete the braced `\def` and then find nothing more. */
  lemma LaterPassesJoin(x: string, y: string)
    requires InitialAbsent(x, "def") && '\\' !in y
    requires forall k :: 3 <= k < |CommandNames| ==> CommandAbsent(x + y, CommandNames[k])
    ensures Sanitize(CommandPasses(CommandNames[3..]), x + "\\def{}" + y) == x + y
  {
    var later := CommandPasses(CommandNames[3..]);
    assert later == [Braced("def")] + later[1..] by {
      CommandPassesUnfold(CommandNames[3..]);
    }
    SanitizeStep(Braced("def"), later[1..], x + "\\def{}" + y);
    DefDeletionJoins(x, y);
    LaterCommandsKeep(x + y);
    CommandPassesMiss(x + y, "def");
    DeletionMisses(Braced("def"), x + y);
    SanitizeStep(Braced("def"), later[1..], x + y);
  }

  /** The bare deletion is the sixth of the source's list, after the three flags and the two argument forms. */
  lemma BareShellPassIsSixth()
    ensures Passes()[5] == Bare("write18")
  {
    FirstCommandPass();
  }

  /** `\write18` at the start of a text, not followed by a word character, is one bare match. */
  lemma BareShellCommandMatches(rest: string)
    requires rest == "" || !IsWordChar(rest[0])
    ensures MatchLen(Bare("write18"), "\\write18" + rest) == 8
  {
    var t := "\\write18" + rest;
    assert t[..8] == "\\write18" && "\\" + "write18" == "\\write18";
    LowerWrite18();
  }

  /** `\write18` at the start of a text, not followed by a word character, is matched by the bare deletion. */
  lemma ShellCommandNotClean(rest: string)
    requires rest == "" || !IsWordChar(rest[0])
    ensures !Clean("\\write18" + rest)
    ensures !IsSafeLatex(Intended, "\\write18" + rest)
  {
    var t := "\\write18" + rest;
    BareShellCommandMatches(rest);
    BareShellPassIsSixth();
    assert t[0..] == t;
    assert !Misses(Passes()[5], t);
    IntendedRejectsShellCommand(rest);
  }

  /** `\wr\def{}ite18` holds no hyphen, and its only backslashes stand before `w` and `d`. */
  lemma SplicedShape(x: string, y: string)
    requires x == "\\wr" && y == "ite18"
    ensures NoFlagStart(x + "\\def{}" + y)
    ensures InitialAbsent(x, "def") && '\\' !in y
    ensures forall i :: 0 <= i < |x + "\\def{}" + y| && (x + "\\def{}" + y)[i] == '\\' ==> i == 0 || i == 3
  {
  }

  /** Neither `\write18`, `\input` nor `\include` occurs in `\wr\def{}ite18`. */
  lemma SplicedHasNoEarlyCommand(x: string, y: string)
    requires x == "\\wr" && y == "ite18"
    ensures forall k :: 0 <= k < 3 ==> CommandAbsent(x + "\\def{}" + y, CommandNames[k])
  {
    var s := x + "\\def{}" + y;
    SplicedShape(x, y);
    NamesNonEmpty();
    forall k, i | 0 <= k < 3 && 0 <= i < |s|
      ensures !HeadIs(s[i..], "\\" + CommandNames[k])
    {
      var w := "\\" + CommandNames[k];
      if HeadIs(s[i..], w) {
        HeadIsChar(s[i..], w, 0);
        HeadIsChar(s[i..], w, 1);
        if i == 0 {
          HeadIsChar(s[i..], w, 3);
        }
        assert false;
      }
    }
  }

  /** No command from `\def` onwards starts with `w`, so none occurs in `\write18`. */
  lemma ReassembledHasNoLaterCommand(r: string)
    requires r == "\\write18"
    ensures forall k :: 3 <= k < |CommandNames| ==> CommandAbsent(r, CommandNames[k])
  {
    forall k | 3 <= k < |CommandNames|
      ensures CommandAbsent(r, CommandNames[k])
    {
      AbsentByInitial(r, CommandNames[k]);
    }
  }

  /**
   * The source's single round of deletions turns `\wr\def{}ite18` into
   * `\write18`: the `\def` pass runs after the `\write18` passes and joins
   * the text around the deleted command into the command it was meant to
   * remove; by `ShellCommandNotClean` the result is neither clean nor safe
   * for the intended check.
   */
  lemma SinglePassReassemblesCommand(x: string, y: string)
    requires x == "\\wr" && y == "ite18"
    ensures StripDangerousLatex(x + "\\def{}" + y) == x + y
    ensures x + y == "\\write18"
  {
    SplicedShape(x, y);
    SplicedHasNoEarlyCommand(x, y);
    ReassembledHasNoLaterCommand(x + y);
    SinglePassJoins(x, y);
  }

  /** Neither argument form of `\write18` matches a bare `\write18` followed by no opener. */
  lemma ArgumentFormsMissBareCommand(rest: string)
    requires '\\' !in rest && '{' !in rest && '[' !in rest
    ensures Misses(Braced("write18"), "\\write18" + rest)
    ensures Misses(Bracketed("write18"), "\\write18" + rest)
  {
    var t := "\\write18" + rest;
    assert forall i :: 8 <= i < |t| ==> t[i] == rest[i - 8];
    assert forall i :: 1 <= i < 8 ==> t[i] != '\\';
    forall i | 0 <= i < |t|
      ensures MatchLen(Braced("write18"), t[i..]) == 0
      ensures MatchLen(Bracketed("write18"), t[i..]) == 0
    {
      if 0 < i && HeadIs(t[i..], "\\write18") {
        assert false;
      }
    }
  }

  /** The bare deletion removes `\write18` and keeps a rest without backslashes. */
  lemma BarePassDeletesCommand(rest: string)
    requires '\\' !in rest && (rest == "" || !IsWordChar(rest[0]))
    ensures SubAll("\\write18" + rest, Matcher(Bare("write18")), "") == rest
  {
    var t := "\\write18" + rest;
    BareShellCommandMatches(rest);
    SubAllAtMatch(t, Matcher(Bare("write18")));
    assert t[8..] == rest;
    NoBackslashNoCommand(rest, "write18");
    CommandPassesMiss(rest, "write18");
    DeletionMisses(Bare("write18"), rest);
  }

  /** The passes for `\write18` turn a bare `\write18` followed by plain text into that text. */
  lemma ShellPassesOnBareCommand(rest: string)
    requires '\\' !in rest && '{' !in rest && '[' !in rest
    requires rest == "" || !IsWordChar(rest[0])
    ensures Sanitize(ShellCommandPasses(), "\\write18" + rest) == rest
  {
    var t := "\\write18" + rest;
    ArgumentFormsMissBareCommand(rest);
    DeletionMisses(Braced("write18"), t);
    DeletionMisses(Bracketed("write18"), t);
    BarePassDeletesCommand(rest);
    SanitizeStep(Braced("write18"), ShellCommandPasses()[1..], t);
    SanitizeStep(Bracketed("write18"), ShellCommandPasses()[2..], t);
    SanitizeStep(Bare("write18"), [], t);
  }

  /**
   * A bare `\write18` is deleted by its own pass, and the text after it is
   * kept when it holds no backslash, no hyphen and no argument opener.
   */
  lemma BareShellCommandRemoved(rest: string)
    requires '\\' !in rest && '-' !in rest && '{' !in rest && '[' !in rest
    requires rest == "" || !IsWordChar(rest[0])
    ensures StripDangerousLatex("\\write18" + rest) == rest
  {
    var t := "\\write18" + rest;
    assert forall i :: 0 <= i < |t| ==> t[i] != '-' by {
      assert forall i :: 8 <= i < |t| ==> t[i] == rest[i - 8];
    }
    OnlyCommandPassesAct(t);
    FirstCommandPass();
    SanitizeAppend(ShellCommandPasses(), CommandPasses(CommandNames[1..]), t);
    ShellPassesOnBareCommand(rest);
    forall k | 0 <= k < |CommandNames[1..]|
      ensures CommandAbsent(rest, CommandNames[1..][k])
    {
      NoBackslashNoCommand(rest, CommandNames[1..][k]);
    }
    AbsentCommandsKeep(CommandNames[1..], rest);
  }

  /** Repeating the deletions until none applies removes the reassembled command as well. */
  lemma FixpointRemovesReassembled(x: string, y: string)
    requires x == "\\wr" && y == "ite18"
    ensures StripToFixpoint(x + "\\def{}" + y) == ""
  {
    SinglePassReassemblesCommand(x, y);
    BareShellCommandRemoved(y[..0]);
    assert x + y == "\\write18" + y[..0];
    SanitizeEmpty(Passes());
    assert StripToFixpoint(y[..0]) == y[..0];
  }
}
