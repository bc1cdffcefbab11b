/**
 * The LaTeX safety layer of commit/security.py: the check for shell-escape
 * flags and dangerous control words, the regex sanitizer that deletes them,
 * and the length guard applied before text goes to the assistant.
 *
 * Two behaviours of the source are carried side by side, selected by
 * `Variant`: the check as written looks for the regex source of each command
 * (two backslashes) and so never sees a real control word, and the sanitizer
 * runs its deletions once, so a deletion can join the pieces of a command it
 * already passed over. `Intended` looks for one backslash and repeats the
 * deletions until nothing matches.
 */
module LatexSafety {
  import opened Results
  import opened Text

  datatype Variant = AsWritten | Intended

  /** The shell-escape flags, as lower-case text. */
  const ShellEscapeFlags: seq<string> := ["--shell-escape", "-shell-escape", "--enable-write18"]

  /** The dangerous control words, without their backslash, in the order they are deleted. */
  const CommandNames: seq<string> :=
    ["write18", "input", "include", "def", "let", "expandafter", "csname",
     "catcode", "read", "openin", "openout", "immediate", "special"]

  /**
   * What the check looks for: the source compares against the regex text of
   * each command, a doubled backslash followed by the name; the intended
   * needle is the control word itself.
   */
  function Needle(v: Variant, name: string): string {
    match v
    case AsWritten => "\\\\" + name
    case Intended => "\\" + name
  }

  /** `is_safe_latex`: no shell-escape flag and no dangerous command, ignoring case. */
  predicate IsSafeLatex(v: Variant, content: string) {
    var low := Lower(content);
    (forall j :: 0 <= j < |ShellEscapeFlags| ==> !Contains(low, ShellEscapeFlags[j]))
    && (forall j :: 0 <= j < |CommandNames| ==> !Contains(low, Needle(v, CommandNames[j])))
  }

  /** The two loops of `is_safe_latex`, each returning at the first hit. */
  method CheckSafe(v: Variant, content: string) returns (safe: bool)
    ensures safe <==> IsSafeLatex(v, content)
  {
    var low := Lower(content);
    var i := 0;
    while i < |ShellEscapeFlags|
      invariant 0 <= i <= |ShellEscapeFlags|
      invariant forall j :: 0 <= j < i ==> !Contains(low, ShellEscapeFlags[j])
    {
      if Contains(low, ShellEscapeFlags[i]) {
        return false;
      }
      i := i + 1;
    }
    i := 0;
    while i < |CommandNames|
      invariant 0 <= i <= |CommandNames|
      invariant forall j :: 0 <= j < i ==> !Contains(low, Needle(v, CommandNames[j]))
    {
      if Contains(low, Needle(v, CommandNames[i])) {
        return false;
      }
      i := i + 1;
    }
    return true;
  }

  lemma LowerAppend(a: string, b: string)
    ensures Lower(a + b) == Lower(a) + Lower(b)
  {
  }

  /** Any shell-escape flag, in any case, makes the text unsafe under either check. */
  lemma {:induction false} FlagIsUnsafe(v: Variant, content: string, j: nat, at: nat)
    requires j < |ShellEscapeFlags| && OccursAt(Lower(content), at, ShellEscapeFlags[j])
    ensures !IsSafeLatex(v, content)
  {
    ContainsIffOccurs(Lower(content), ShellEscapeFlags[j]);
  }

  /** The intended check is the stricter one: whatever it passes, the check as written passes too. */
  lemma IntendedIsStricter(content: string)
    ensures IsSafeLatex(Intended, content) ==> IsSafeLatex(AsWritten, content)
  {
    var low := Lower(content);
    forall j | 0 <= j < |CommandNames| && Contains(low, Needle(AsWritten, CommandNames[j]))
      ensures Contains(low, Needle(Intended, CommandNames[j]))
    {
      var n := CommandNames[j];
      var aw := Needle(AsWritten, n);
      var iw := Needle(Intended, n);
      assert aw[1..] == iw;
      ContainsIffOccurs(low, aw);
      var i :| OccursAt(low, i, aw);
      assert low[i + 1..i + 1 + |iw|] == low[i..i + |aw|][1..];
      assert OccursAt(low, i + 1, iw);
      ContainsIffOccurs(low, iw);
    }
  }

  /** No two backslashes in a row anywhere in the text. */
  predicate NoDoubleBackslash(s: string) {
    forall i :: 0 <= i < |s| - 1 ==> !(s[i] == '\\' && s[i + 1] == '\\')
  }

  /** No hyphen in the text starts a shell-escape flag: each is followed by neither a hyphen nor an `s`. */
  predicate NoFlagStart(s: string) {
    forall i :: 0 <= i < |s| - 1 && s[i] == '-' ==> s[i + 1] != '-' && LowerChar(s[i + 1]) != 's'
  }

  lemma FlagStartAt(s: string, i: nat, f: string)
    requires |f| >= 2 && OccursAt(Lower(s), i, f)
    ensures LowerChar(s[i]) == f[0] && LowerChar(s[i + 1]) == f[1]
  {
    OccursAtHead(Lower(s), i, f);
  }

  lemma OccursAtHead(l: string, i: nat, f: string)
    requires |f| >= 2 && OccursAt(l, i, f)
    ensures i + 1 < |l| && l[i] == f[0] && l[i + 1] == f[1]
  {
    assert l[i..i + |f|][0] == l[i];
    assert l[i..i + |f|][1] == l[i + 1];
  }

  lemma {:induction false} NoFlagIn(s: string)
    requires NoFlagStart(s)
    ensures forall j :: 0 <= j < |ShellEscapeFlags| ==> !Contains(Lower(s), ShellEscapeFlags[j])
  {
    var low := Lower(s);
    forall j | 0 <= j < |ShellEscapeFlags|
      ensures !Contains(low, ShellEscapeFlags[j])
    {
      ContainsIffOccurs(low, ShellEscapeFlags[j]);
      if i :| OccursAt(low, i, ShellEscapeFlags[j]) {
        FlagStartAt(s, i, ShellEscapeFlags[j]);
        assert false;
      }
    }
  }

  /**
   * The check as written passes every text without a doubled backslash and
   * without a shell flag, so `\write18{rm -rf /}` itself is called safe.
   */
  lemma {:induction false} AsWrittenPassesControlWords(content: string)
    requires NoDoubleBackslash(content) && NoFlagStart(content)
    ensures IsSafeLatex(AsWritten, content)
  {
    NoFlagIn(content);
    var low := Lower(content);
    forall j | 0 <= j < |CommandNames|
      ensures !Contains(low, Needle(AsWritten, CommandNames[j]))
    {
      var w := Needle(AsWritten, CommandNames[j]);
      assert w[0] == '\\' && w[1] == '\\';
      ContainsIffOccurs(low, w);
      if i :| OccursAt(low, i, w) {
        assert false;
      }
    }
  }

  /** The intended check rejects any text in which a dangerous control word occurs. */
  lemma {:induction false} IntendedCatchesControlWord(content: string, j: nat, at: nat)
    requires j < |CommandNames| && OccursAt(Lower(content), at, "\\" + CommandNames[j])
    ensures !IsSafeLatex(Intended, content)
  {
    ContainsIffOccurs(Lower(content), "\\" + CommandNames[j]);
  }

  // ---------------------------------------------------------------------
  // The sanitizer: one `re.sub` per pattern, each deleting its matches.
  // ---------------------------------------------------------------------

  /**
   * One deletion of `strip_dangerous_latex`: a shell flag; a command with a
   * braced argument; with a bracketed argument; or the bare command ending at
   * a word boundary.
   */
  datatype Pass = Flag(flag: string) | Braced(name: string) | Bracketed(name: string) | Bare(name: string)

  function FlagPasses(flags: seq<string>): (ps: seq<Pass>)
    ensures |ps| == |flags|
    ensures forall i :: 0 <= i < |flags| ==> ps[i] == Flag(flags[i])
  {
    seq(|flags|, i requires 0 <= i < |flags| => Flag(flags[i]))
  }

  function CommandPasses(names: seq<string>): (ps: seq<Pass>)
    ensures |ps| == 3 * |names|
  {
    if |names| == 0 then []
    else [Braced(names[0]), Bracketed(names[0]), Bare(names[0])] + CommandPasses(names[1..])
  }

  /** Every deletion, in the order the source applies them. */
  function Passes(): seq<Pass> {
    FlagPasses(ShellEscapeFlags) + CommandPasses(CommandNames)
  }

  /** `t` starts with `w`, ignoring case. */
  predicate HeadIs(t: string, w: string) {
    |w| <= |t| && Lower(t[..|w|]) == w
  }

  lemma HeadIsChar(t: string, w: string, k: nat)
    requires HeadIs(t, w) && k < |w|
    ensures LowerChar(t[k]) == w[k]
  {
    assert Lower(t[..|w|])[k] == LowerChar(t[k]);
  }

  /**
   * The length of a command `w` with an argument opened by `open` and closed
   * by the first `close` after it, whitespace allowed before the argument, at
   * the start of `t`; 0 when there is none.
   */
  function Argument(t: string, w: string, open: char, close: char): (k: nat)
    ensures k <= |t|
    ensures k > 0 ==> HeadIs(t, w)
  {
    if !HeadIs(t, w) then 0
    else
      var j := |w| + LeadingSpaces(t[|w|..]);
      if j < |t| && t[j] == open then
        match FirstWhere(j + 1, |t|, (i: nat) => i < |t| && t[i] == close)
        case Some(e) => e + 1
        case None => 0
      else 0
  }

  /** The length of the match of pass `p` at the start of `t`, or 0. */
  function MatchLen(p: Pass, t: string): (k: nat)
    ensures k <= |t|
  {
    match p
    case Flag(f) => if HeadIs(t, f) then |f| else 0
    case Braced(n) => Argument(t, "\\" + n, '{', '}')
    case Bracketed(n) => Argument(t, "\\" + n, '[', ']')
    case Bare(n) =>
      var w := "\\" + n;
      if HeadIs(t, w) && (|w| == |t| || !IsWordChar(t[|w|])) then |w| else 0
  }

  function Matcher(p: Pass): string -> nat {
    t => MatchLen(p, t)
  }

  /** The passes applied one after the other, each deleting every match it finds. */
  function Sanitize(ps: seq<Pass>, s: string): string
    decreases |ps|
  {
    if |ps| == 0 then s else Sanitize(ps[1..], SubAll(s, Matcher(ps[0]), ""))
  }

  /** `strip_dangerous_latex`. */
  function StripDangerousLatex(content: string): string {
    Sanitize(Passes(), content)
  }

  /** Pass `p` matches nowhere in `s`. */
  predicate Misses(p: Pass, s: string) {
    forall i :: 0 <= i < |s| ==> MatchLen(p, s[i..]) == 0
  }

  /** A deletion never lengthens the text, and keeps its length only when it matched nowhere. */
  lemma {:induction false} DeletionShrinks(p: Pass, s: string)
    ensures |SubAll(s, Matcher(p), "")| <= |s|
    ensures |SubAll(s, Matcher(p), "")| == |s| ==> Misses(p, s)
    decreases |s|
  {
    if |s| > 0 {
      var k := Matcher(p)(s);
      if 0 < k <= |s| {
        DeletionShrinks(p, s[k..]);
      } else {
        DeletionShrinks(p, s[1..]);
        assert s[0..] == s;
        forall i | 1 <= i < |s| && |SubAll(s, Matcher(p), "")| == |s|
          ensures MatchLen(p, s[i..]) == 0
        {
          assert s[1..][i - 1..] == s[i..];
        }
      }
    }
  }

  lemma DeletionMisses(p: Pass, s: string)
    requires Misses(p, s)
    ensures SubAll(s, Matcher(p), "") == s
  {
    SubAllNoMatch(s, Matcher(p), "");
  }

  /** The sanitizer never lengthens the text; it keeps the length only when no pass matched. */
  lemma {:induction false} SanitizeShrinks(ps: seq<Pass>, s: string)
    ensures |Sanitize(ps, s)| <= |s|
    ensures |Sanitize(ps, s)| == |s| ==> Sanitize(ps, s) == s && forall j :: 0 <= j < |ps| ==> Misses(ps[j], s)
    decreases |ps|
  {
    if |ps| > 0 {
      var t := SubAll(s, Matcher(ps[0]), "");
      DeletionShrinks(ps[0], s);
      SanitizeShrinks(ps[1..], t);
      if |Sanitize(ps, s)| == |s| {
        DeletionMisses(ps[0], s);
        assert t == s;
        assert forall j :: 1 <= j < |ps| ==> ps[j] == ps[1..][j - 1];
      }
    }
  }

  /** Text that no pass matches passes through the sanitizer unchanged. */
  lemma {:induction false} SanitizeKeepsClean(ps: seq<Pass>, s: string)
    requires forall j :: 0 <= j < |ps| ==> Misses(ps[j], s)
    ensures Sanitize(ps, s) == s
    decreases |ps|
  {
    if |ps| > 0 {
      DeletionMisses(ps[0], s);
      assert forall j :: 0 <= j < |ps| - 1 ==> ps[1..][j] == ps[j + 1];
      SanitizeKeepsClean(ps[1..], s);
    }
  }

  lemma {:induction false} SanitizeAppend(a: seq<Pass>, b: seq<Pass>, s: string)
    ensures Sanitize(a + b, s) == Sanitize(b, Sanitize(a, s))
    decreases |a|
  {
    if |a| == 0 {
      assert a + b == b;
    } else {
      assert (a + b)[1..] == a[1..] + b;
      SanitizeAppend(a[1..], b, SubAll(s, Matcher(a[0]), ""));
    }
  }

  // ---------------------------------------------------------------------
  // The corrected sanitizer: repeat the deletions until none applies.
  // ---------------------------------------------------------------------

  /** No deletion of the source's list matches anywhere in `s`. */
  predicate Clean(s: string) {
    forall j :: 0 <= j < |Passes()| ==> Misses(Passes()[j], s)
  }

  function StripToFixpoint(content: string): (r: string)
    ensures Clean(r)
    ensures |r| <= |content|
    decreases |content|
  {
    var once := StripDangerousLatex(content);
    SanitizeShrinks(Passes(), content);
    if |once| == |content| then content else StripToFixpoint(once)
  }

  /** Text that is already clean is left as it is by either sanitizer. */
  lemma FixpointKeepsClean(content: string)
    requires Clean(content)
    ensures StripToFixpoint(content) == content
    ensures StripDangerousLatex(content) == content
  {
    SanitizeKeepsClean(Passes(), content);
  }

  /** The sanitizer each variant uses. */
  function Sanitizer(v: Variant, content: string): (r: string)
    ensures |r| <= |content|
    ensures v == Intended ==> Clean(r)
  {
    match v
    case AsWritten =>
      SanitizeShrinks(Passes(), content);
      StripDangerousLatex(content)
    case Intended => StripToFixpoint(content)
  }

  // ---------------------------------------------------------------------
  // The length guards.
  // ---------------------------------------------------------------------

  /** The marker appended by `get_safe_subset`: 16 characters. */
  const Truncated: string := "\n... (truncated)"

  /** The marker appended by `validate_latex_for_llm`: 24 characters. */
  const TruncatedForLlm: string := "\n... (truncated" + " for LLM)"

  /** Python's `text[:maxLength] + marker` when `text` is longer than `maxLength`. */
  function Cap(text: string, maxLength: int, marker: string): (r: string)
    ensures |text| <= maxLength ==> r == text
    ensures 0 <= maxLength < |text| ==> r == text[..maxLength] + marker
    ensures maxLength < 0 ==> r == text[..Max(0, |text| + maxLength)] + marker
    ensures 0 <= maxLength ==> |r| <= maxLength + |marker|
  {
    if |text| > maxLength then PySlice(text, 0, maxLength) + marker else text
  }

  /** `get_safe_subset`: the sanitized text, cut to `maxLength` characters plus a 16-character marker when longer. */
  function GetSafeSubset(v: Variant, content: string, maxLength: int): (r: string)
    ensures |Sanitizer(v, content)| <= maxLength ==> r == Sanitizer(v, content)
    ensures 0 <= maxLength < |Sanitizer(v, content)| ==> r == Sanitizer(v, content)[..maxLength] + Truncated
    ensures 0 <= maxLength ==> |r| <= maxLength + 16
    ensures v == Intended && |Sanitizer(v, content)| <= maxLength ==> Clean(r)
  {
    Cap(Sanitizer(v, content), maxLength, Truncated)
  }

  function TooLargeMessage(size: nat, maxLength: int): string {
    "Content too large (" + IntToString(size) + " chars, max " + IntToString(maxLength) + ")"
  }

  /**
   * `validate_latex_for_llm`: rejects blank and far too long text; unsafe
   * text is sanitized and accepted without a length cut; safe text is
   * accepted, cut to `maxLength` characters plus a marker when longer.
   */
  function ValidateForLlm(v: Variant, content: string, maxLength: int): (r: (bool, string))
    ensures !r.0 <==> IsBlank(content) || |content| > 2 * maxLength
    ensures IsBlank(content) ==> r == (false, "Empty content")
    ensures !IsBlank(content) && |content| > 2 * maxLength ==> r.1 == TooLargeMessage(|content|, maxLength)
    ensures r.0 && !IsSafeLatex(v, content) ==> r.1 == Sanitizer(v, content) && |r.1| <= |content|
    ensures r.0 && IsSafeLatex(v, content) && |content| <= maxLength ==> r.1 == content
    ensures r.0 && IsSafeLatex(v, content) && |content| > maxLength ==>
      0 <= maxLength && r.1 == content[..maxLength] + TruncatedForLlm && |r.1| == maxLength + 24
    ensures r.0 && v == Intended ==> IsSafeLatex(Intended, content) || Clean(r.1)
  {
    if IsBlank(content) then (false, "Empty content")
    else if |content| > maxLength * 2 then (false, TooLargeMessage(|content|, maxLength))
    else if !IsSafeLatex(v, content) then (true, Sanitizer(v, content))
    else (true, Cap(content, maxLength, TruncatedForLlm))
  }
}
