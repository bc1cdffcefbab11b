/**
 * String helpers that mirror the Python built-ins the notes engine relies on:
 * slicing with negative bounds, `strip`, `lower`, `split('\n')`, `startswith`,
 * substring tests, and left-to-right `re.sub` over a matcher.
 */
module Text {
  import opened Results

  /** Python's `str.isspace` / regex `\s` on the ASCII range. */
  predicate IsSpace(c: char) {
    c == ' ' || c == '\t' || c == '\n' || c == '\r' || c == '\U{B}' || c == '\U{C}'
    || c == '\U{1C}' || c == '\U{1D}' || c == '\U{1E}' || c == '\U{1F}'
  }

  /** Regex `\w` on the ASCII range. */
  predicate IsWordChar(c: char) {
    ('a' <= c <= 'z') || ('A' <= c <= 'Z') || ('0' <= c <= '9') || c == '_'
  }

  predicate IsAsciiLetter(c: char) {
    ('a' <= c <= 'z') || ('A' <= c <= 'Z')
  }

  function LowerChar(c: char): char {
    if 'A' <= c <= 'Z' then (c as int + 32) as char else c
  }

  function UpperChar(c: char): char {
    if 'a' <= c <= 'z' then (c as int - 32) as char else c
  }

  /** `str.lower()` on the ASCII range. */
  function Lower(s: string): (r: string)
    ensures |r| == |s|
    ensures forall i :: 0 <= i < |s| ==> r[i] == LowerChar(s[i])
  {
    if |s| == 0 then "" else [LowerChar(s[0])] + Lower(s[1..])
  }

  /** Clamps a Python slice bound into `[0, n]`, counting negative bounds from the end. */
  function SliceBound(i: int, n: nat): (b: nat)
    ensures b <= n
    ensures 0 <= i <= n ==> b == i
  {
    if i < 0 then (if i + n < 0 then 0 else i + n) else if i > n then n else i
  }

  /** The least `k` in `[from, to)` satisfying `P`, if any: a left-to-right search. */
  function FirstWhere(from: nat, to: nat, P: nat -> bool): (k: Option<nat>)
    decreases to - from
    ensures k.Some? ==> from <= k.value < to && P(k.value)
    ensures k.Some? ==> forall i :: from <= i < k.value ==> !P(i)
    ensures k.None? ==> forall i :: from <= i < to ==> !P(i)
  {
    if from >= to then None
    else if P(from) then Some(from)
    else FirstWhere(from + 1, to, P)
  }

  /** Python's `s[i:j]`. */
  function PySlice<T>(s: seq<T>, i: int, j: int): (r: seq<T>)
    ensures |r| <= |s|
    ensures 0 <= i <= j <= |s| ==> r == s[i..j]
  {
    var a := SliceBound(i, |s|);
    var b := SliceBound(j, |s|);
    if a < b then s[a..b] else []
  }

  function Min(a: int, b: int): int { if a <= b then a else b }
  function Max(a: int, b: int): int { if a >= b then a else b }

  predicate StartsWith(s: string, p: string) {
    |p| <= |s| && s[..|p|] == p
  }

  predicate EndsWith(s: string, p: string) {
    |p| <= |s| && s[|s| - |p|..] == p
  }

  /** `w` occurs in `s` starting at index `i`. */
  predicate OccursAt(s: string, i: int, w: string) {
    0 <= i && i + |w| <= |s| && s[i..i + |w|] == w
  }

  /** Python's `w in s`, written so that it unfolds on literal strings. */
  predicate Contains(s: string, w: string)
    decreases |s|
  {
    if |s| < |w| then false else StartsWith(s, w) || Contains(s[1..], w)
  }

  lemma {:induction false} ContainsIffOccurs(s: string, w: string)
    ensures Contains(s, w) <==> exists i :: OccursAt(s, i, w)
    decreases |s|
  {
    if |s| < |w| {
      forall i | OccursAt(s, i, w) ensures false { }
    } else if StartsWith(s, w) {
      assert OccursAt(s, 0, w);
    } else {
      ContainsIffOccurs(s[1..], w);
      if Contains(s[1..], w) {
        var i :| OccursAt(s[1..], i, w);
        assert s[1..][i..i + |w|] == s[i + 1..i + 1 + |w|];
        assert OccursAt(s, i + 1, w);
      } else {
        forall i | OccursAt(s, i, w) ensures false {
          assert i != 0;
          assert s[1..][i - 1..i - 1 + |w|] == s[i..i + |w|];
          assert OccursAt(s[1..], i - 1, w);
        }
      }
    }
  }

  /** Length of the run of whitespace at the start of `s`. */
  function LeadingSpaces(s: string): (n: nat)
    ensures n <= |s|
    ensures forall i :: 0 <= i < n ==> IsSpace(s[i])
    ensures n < |s| ==> !IsSpace(s[n])
  {
    if |s| > 0 && IsSpace(s[0]) then 1 + LeadingSpaces(s[1..]) else 0
  }

  /** Length of the run of whitespace at the end of `s`. */
  function TrailingSpaces(s: string): (n: nat)
    ensures n <= |s|
    ensures forall i :: |s| - n <= i < |s| ==> IsSpace(s[i])
    ensures n < |s| ==> !IsSpace(s[|s| - n - 1])
  {
    if |s| > 0 && IsSpace(s[|s| - 1]) then 1 + TrailingSpaces(s[..|s| - 1]) else 0
  }

  /** `str.lstrip()`. */
  function LStrip(s: string): (r: string)
    ensures r == s[LeadingSpaces(s)..]
    ensures |r| > 0 ==> !IsSpace(r[0])
    ensures |r| == 0 <==> forall i :: 0 <= i < |s| ==> IsSpace(s[i])
  {
    var n := LeadingSpaces(s);
    if n < |s| then
      assert s[n..][0] == s[n];
      s[n..]
    else s[n..]
  }

  /** `str.rstrip()`. */
  function RStrip(s: string): (r: string)
    ensures r == s[..|s| - TrailingSpaces(s)]
    ensures |r| > 0 ==> !IsSpace(r[|r| - 1])
    ensures |r| == 0 <==> forall i :: 0 <= i < |s| ==> IsSpace(s[i])
  {
    var n := TrailingSpaces(s);
    if n < |s| then
      assert s[..|s| - n][|s| - n - 1] == s[|s| - n - 1];
      s[..|s| - n]
    else s[..|s| - n]
  }

  /** `str.strip()`: the result neither starts nor ends with whitespace. */
  function Strip(s: string): (r: string)
    ensures |r| <= |s|
    ensures |r| > 0 ==> !IsSpace(r[0]) && !IsSpace(r[|r| - 1])
    ensures |r| == 0 <==> forall i :: 0 <= i < |s| ==> IsSpace(s[i])
  {
    var l := LStrip(s);
    var r := RStrip(l);
    if |r| > 0 then
      assert r[0] == l[0];
      r
    else r
  }

  /** Text that neither starts nor ends with whitespace is its own strip. */
  lemma StripUnchanged(s: string)
    requires |s| > 0 ==> !IsSpace(s[0]) && !IsSpace(s[|s| - 1])
    ensures Strip(s) == s
  {
    assert LeadingSpaces(s) == 0;
    assert LStrip(s) == s;
    assert TrailingSpaces(s) == 0;
  }

  /** True when the text is empty or all whitespace: Python's `not s.strip()` (see `Strip`). */
  predicate IsBlank(s: string) {
    forall i :: 0 <= i < |s| ==> IsSpace(s[i])
  }

  /** Python's `s.split('\n')`: never empty, and no piece holds a newline. */
  function Lines(s: string): (ls: seq<string>)
    ensures |ls| >= 1
    ensures forall i :: 0 <= i < |ls| ==> '\n' !in ls[i]
  {
    if |s| == 0 then [""]
    else
      var rest := Lines(s[1..]);
      if s[0] == '\n' then [""] + rest
      else [[s[0]] + rest[0]] + rest[1..]
  }

  /** Python's `'\n'.join(ls)`. */
  function Unlines(ls: seq<string>): string {
    if |ls| == 0 then ""
    else if |ls| == 1 then ls[0]
    else ls[0] + "\n" + Unlines(ls[1..])
  }

  /** Number of occurrences of `c` in `s` (Python's `s.count(c)` for one character). */
  function CountChar(s: string, c: char): (n: nat)
    ensures n <= |s|
  {
    if |s| == 0 then 0 else (if s[0] == c then 1 else 0) + CountChar(s[1..], c)
  }

  lemma {:induction false} CountCharAppend(a: string, b: string, c: char)
    ensures CountChar(a + b, c) == CountChar(a, c) + CountChar(b, c)
  {
    if |a| == 0 {
      assert a + b == b;
    } else {
      assert (a + b)[1..] == a[1..] + b;
      CountCharAppend(a[1..], b, c);
    }
  }

  /** Counting is monotone in the prefix taken. */
  lemma CountCharPrefixMonotone(s: string, i: nat, j: nat, c: char)
    requires i <= j <= |s|
    ensures CountChar(s[..i], c) <= CountChar(s[..j], c)
  {
    assert s[..j] == s[..i] + s[i..j];
    CountCharAppend(s[..i], s[i..j], c);
  }

  /** Splitting on newlines yields one more piece than there are newlines. */
  lemma {:induction false} LinesCount(s: string)
    ensures |Lines(s)| == CountChar(s, '\n') + 1
  {
    if |s| > 0 {
      LinesCount(s[1..]);
    }
  }

  /** Joining lines that hold no newline and splitting again gives the lines back. */
  lemma {:induction false} LinesUnlines(ls: seq<string>)
    requires |ls| >= 1
    requires forall i :: 0 <= i < |ls| ==> '\n' !in ls[i]
    ensures Lines(Unlines(ls)) == ls
    decreases |ls|, |ls[0]|
  {
    if |ls| == 1 {
      LinesOfPlain(ls[0]);
    } else if |ls[0]| == 0 {
      assert Unlines(ls) == "\n" + Unlines(ls[1..]);
      assert ("\n" + Unlines(ls[1..]))[1..] == Unlines(ls[1..]);
      LinesUnlines(ls[1..]);
    } else {
      var t := [ls[0][1..]] + ls[1..];
      assert t[1..] == ls[1..];
      assert '\n' !in t[0];
      LinesUnlines(t);
      assert Unlines(ls) == [ls[0][0]] + Unlines(t);
      assert Unlines(ls)[1..] == Unlines(t);
      assert [ls[0][0]] + t[0] == ls[0];
    }
  }

  lemma {:induction false} LinesOfPlain(s: string)
    requires '\n' !in s
    ensures Lines(s) == [s]
  {
    if |s| > 0 {
      assert '\n' !in s[1..];
      LinesOfPlain(s[1..]);
      assert [s[0]] + s[1..] == s;
    }
  }

  /**
   * A character other than a newline sits on the line numbered by the
   * newlines before it, and that line is not empty.
   */
  lemma {:induction false} LineOfPosition(s: string, p: nat)
    requires p < |s| && s[p] != '\n'
    ensures CountChar(s[..p], '\n') < |Lines(s)|
    ensures |Lines(s)[CountChar(s[..p], '\n')]| > 0
  {
    var rest := Lines(s[1..]);
    if p > 0 {
      LineOfPosition(s[1..], p - 1);
      assert s[..p] == [s[0]] + s[1..][..p - 1];
      assert s[..p][1..] == s[1..][..p - 1];
    }
  }

  /** Splitting then joining gives the text back. */
  lemma {:induction false} UnlinesLines(s: string)
    ensures Unlines(Lines(s)) == s
  {
    if |s| > 0 {
      UnlinesLines(s[1..]);
      var rest := Lines(s[1..]);
      if s[0] == '\n' {
        assert Unlines([""] + rest) == "" + "\n" + Unlines(rest);
      } else {
        var ls := [[s[0]] + rest[0]] + rest[1..];
        if |rest| == 1 {
          assert Unlines(ls) == [s[0]] + rest[0];
        } else {
          assert ls[1..] == rest[1..];
          assert Unlines(rest) == rest[0] + "\n" + Unlines(rest[1..]);
        }
      }
    }
  }

  function DigitChar(d: nat): char
    requires d < 10
  {
    "0123456789"[d]
  }

  /** Decimal rendering of a natural number. */
  function NatToString(n: nat): (r: string)
    ensures |r| >= 1
    ensures forall i :: 0 <= i < |r| ==> '0' <= r[i] <= '9'
  {
    if n < 10 then [DigitChar(n)] else NatToString(n / 10) + [DigitChar(n % 10)]
  }

  /** Python's `str(n)` for an integer. */
  function IntToString(n: int): string {
    if n < 0 then "-" + NatToString(-n) else NatToString(n)
  }

  /**
   * Python's `re.sub(pattern, repl, s)` for a pattern that never matches the
   * empty string: `matchLen(t)` is the length of the match at the start of `t`,
   * or 0 when the pattern does not match there. Matches are taken left to
   * right without overlap; unmatched characters are copied.
   */
  function SubAll(s: string, matchLen: string -> nat, repl: string): string
    decreases |s|
  {
    if |s| == 0 then ""
    else
      var k := matchLen(s);
      if 0 < k <= |s| then repl + SubAll(s[k..], matchLen, repl)
      else [s[0]] + SubAll(s[1..], matchLen, repl)
  }

  /** A pattern that matches nowhere leaves the text unchanged. */
  lemma {:induction false} SubAllNoMatch(s: string, matchLen: string -> nat, repl: string)
    requires forall i :: 0 <= i < |s| ==> matchLen(s[i..]) == 0
    ensures SubAll(s, matchLen, repl) == s
  {
    if |s| > 0 {
      assert s[0..] == s;
      forall i | 0 <= i < |s[1..]| ensures matchLen(s[1..][i..]) == 0 {
        assert s[1..][i..] == s[i + 1..];
      }
      SubAllNoMatch(s[1..], matchLen, repl);
    }
  }

  /** `re.sub(r"\s+", " ", s)`. */
  function CollapseSpaces(s: string): string {
    SubAll(s, LeadingSpaces, " ")
  }
}
