/**
 * Identity and change-detection digests (renforce/hashing.py).
 *
 * SHA-1 itself is not modelled: every operation takes the hash function as a
 * parameter, and the facts that need its shape or its freedom from collisions
 * say so as hypotheses.
 */
module Hashing {
  import opened Results
  import opened Text

  /** A function standing in for `hashlib.sha1(...).hexdigest()`. */
  type Hasher = string -> string

  predicate IsLowerHex(c: char) {
    ('0' <= c <= '9') || ('a' <= c <= 'f')
  }

  /** The shape of a SHA-1 hex digest: 40 lower-case hexadecimal characters. */
  predicate IsHexDigest(s: string) {
    |s| == 40 && forall i :: 0 <= i < |s| ==> IsLowerHex(s[i])
  }

  /** `hash` always returns something shaped like a SHA-1 hex digest. */
  ghost predicate ShapesDigests(hash: Hasher) {
    forall s :: IsHexDigest(hash(s))
  }

  /** `hash` does not collide on these two inputs. */
  predicate NoCollision(hash: Hasher, x: string, y: string) {
    x != y ==> hash(x) != hash(y)
  }

  /** The text hashed for an identity: the three parts joined with `|`. */
  function GuidPreimage(env: string, body: string, path: string): string {
    env + "|" + body + "|" + path
  }

  /** `compute_guid`: the identity of a block of kind `env` with body `body` in file `path`. */
  function ComputeGuid(hash: Hasher, env: string, body: string, path: string): (g: string)
    ensures ShapesDigests(hash) ==> IsHexDigest(g)
  {
    hash(GuidPreimage(env, body, path))
  }

  /** `compute_content_hash`: the digest of the body alone. */
  function ComputeContentHash(hash: Hasher, body: string): (d: string)
    ensures ShapesDigests(hash) ==> IsHexDigest(d)
  {
    hash(body)
  }

  /** `short_hash(h, n)`: the first `n` characters of `h`, or all of `h` when it is shorter. */
  function ShortHash(full: string, length: int): (r: string)
    ensures 0 <= length ==> |r| == Min(length, |full|) && StartsWith(full, r)
    ensures 0 <= length <= |full| ==> |r| == length
    ensures |full| <= length ==> r == full
  {
    PySlice(full, 0, length)
  }

  /** The default 12-character marker form of an identity. */
  function ShortGuid(full: string): (r: string)
    ensures |r| == Min(12, |full|) && StartsWith(full, r)
  {
    ShortHash(full, 12)
  }

  /** The list comprehension `[g for g in full_guids if g.startswith(short_guid)]`. */
  function Matching(short: string, guids: seq<string>): (ms: seq<string>)
    ensures forall g :: g in ms <==> g in guids && StartsWith(g, short)
    ensures |ms| == 0 <==> forall j :: 0 <= j < |guids| ==> !StartsWith(guids[j], short)
    ensures |ms| <= |guids|
  {
    if |guids| == 0 then []
    else (if StartsWith(guids[0], short) then [guids[0]] else []) + Matching(short, guids[1..])
  }

  /** Exactly one position of `guids` holds a string starting with `short`. */
  predicate UniqueMatchAt(short: string, guids: seq<string>, i: int) {
    && 0 <= i < |guids|
    && StartsWith(guids[i], short)
    && forall j :: 0 <= j < |guids| && j != i ==> !StartsWith(guids[j], short)
  }

  /**
   * `match_short_guid_to_full`: a full identity is returned exactly when one
   * listed identity (counting repeats) starts with the short form, and it is
   * that identity; no match and several matches both give `None`.
   */
  function MatchShortGuidToFull(short: string, guids: seq<string>): (r: Option<string>)
    ensures r.Some? <==> exists i :: UniqueMatchAt(short, guids, i)
    ensures forall i :: UniqueMatchAt(short, guids, i) ==> r == Some(guids[i])
  {
    var ms := Matching(short, guids);
    forall i | UniqueMatchAt(short, guids, i) ensures ms == [guids[i]] {
      MatchingOfUnique(short, guids, i);
    }
    if |ms| == 1 then
      MatchingSingletonIsUnique(short, guids);
      Some(ms[0])
    else None
  }

  /** When exactly one position matches, the comprehension is that one element. */
  lemma {:induction false} MatchingOfUnique(short: string, guids: seq<string>, i: int)
    requires UniqueMatchAt(short, guids, i)
    ensures Matching(short, guids) == [guids[i]]
  {
    var tail := guids[1..];
    if i == 0 {
      assert forall j :: 0 <= j < |tail| ==> tail[j] == guids[j + 1];
      assert Matching(short, tail) == [];
    } else {
      assert !StartsWith(guids[0], short);
      assert UniqueMatchAt(short, tail, i - 1) by {
        assert forall j :: 0 <= j < |tail| ==> tail[j] == guids[j + 1];
      }
      MatchingOfUnique(short, tail, i - 1);
    }
  }

  /** A one-element comprehension comes from exactly one matching position. */
  lemma {:induction false} MatchingSingletonIsUnique(short: string, guids: seq<string>)
    requires |Matching(short, guids)| == 1
    ensures exists i :: UniqueMatchAt(short, guids, i)
  {
    var tail := guids[1..];
    assert forall j :: 0 <= j < |tail| ==> tail[j] == guids[j + 1];
    if StartsWith(guids[0], short) {
      assert |Matching(short, tail)| == 0;
      assert UniqueMatchAt(short, guids, 0);
    } else {
      MatchingSingletonIsUnique(short, tail);
      var i :| UniqueMatchAt(short, tail, i);
      assert UniqueMatchAt(short, guids, i + 1);
    }
  }

  /** `compute_block_signature`: `env[title]@file:line`, or `env@file:line` when the title is absent or empty. */
  function ComputeBlockSignature(env: string, path: string, line: int, title: Option<string>): (r: string)
    ensures StartsWith(r, env)
    ensures EndsWith(r, "@" + path + ":" + IntToString(line))
    ensures title.Some? && title.value != "" ==> StartsWith(r, env + "[" + title.value + "]@")
    ensures title.Some? && title.value != "" ==> |r| == |env| + |title.value| + |path| + 4 + |IntToString(line)|
    ensures !(title.Some? && title.value != "") ==> |r| == |env| + |path| + 2 + |IntToString(line)|
  {
    var tail := "@" + path + ":" + IntToString(line);
    if title.Some? && title.value != "" then
      var r := env + "[" + title.value + "]" + tail;
      assert r[..|env|] == env;
      assert r[..|env + "[" + title.value + "]@"|] == env + "[" + title.value + "]@";
      assert r[|r| - |tail|..] == tail;
      r
    else
      var r := env + tail;
      assert r[..|env|] == env;
      assert r[|r| - |tail|..] == tail;
      r
  }

  /**
   * The `|` join separates its parts whenever no part contains `|`: two
   * preimages agree only when all three parts agree.
   */
  lemma GuidPreimageInjective(e1: string, b1: string, p1: string, e2: string, b2: string, p2: string)
    requires '|' !in e1 && '|' !in b1 && '|' !in e2 && '|' !in b2
    requires GuidPreimage(e1, b1, p1) == GuidPreimage(e2, b2, p2)
    ensures e1 == e2 && b1 == b2 && p1 == p2
  {
    assert GuidPreimage(e1, b1, p1) == e1 + "|" + (b1 + "|" + p1);
    assert GuidPreimage(e2, b2, p2) == e2 + "|" + (b2 + "|" + p2);
    SplitAtFirstBar(e1, b1 + "|" + p1, e2, b2 + "|" + p2);
    SplitAtFirstBar(b1, p1, b2, p2);
  }

  /** Index of the first `|` in `s`, or `|s|` when there is none. */
  function FirstBar(s: string): (n: nat)
    ensures n <= |s|
  {
    if |s| == 0 || s[0] == '|' then 0 else 1 + FirstBar(s[1..])
  }

  lemma {:induction false} FirstBarAfter(x: string, y: string)
    requires '|' !in x
    ensures FirstBar(x + "|" + y) == |x|
  {
    if |x| > 0 {
      assert (x + "|" + y)[1..] == x[1..] + "|" + y;
      FirstBarAfter(x[1..], y);
    }
  }

  /** `x|y == x'|y'` with no bar in `x` or `x'` forces `x == x'` and `y == y'`. */
  lemma SplitAtFirstBar(x: string, y: string, x': string, y': string)
    requires '|' !in x && '|' !in x'
    requires x + "|" + y == x' + "|" + y'
    ensures x == x' && y == y'
  {
    var s := x + "|" + y;
    FirstBarAfter(x, y);
    FirstBarAfter(x', y');
    assert x == s[..|x|] == x';
    assert y == s[|x| + 1..] == y';
  }

  /**
   * Changing exactly one of kind, body or path changes the identity, provided
   * the parts contain no `|` and the hash does not collide on the two preimages.
   */
  lemma GuidSeparatesInputs(hash: Hasher, e1: string, b1: string, p1: string, e2: string, b2: string, p2: string)
    requires '|' !in e1 && '|' !in b1 && '|' !in e2 && '|' !in b2
    requires (e1, b1, p1) != (e2, b2, p2)
    requires NoCollision(hash, GuidPreimage(e1, b1, p1), GuidPreimage(e2, b2, p2))
    ensures ComputeGuid(hash, e1, b1, p1) != ComputeGuid(hash, e2, b2, p2)
  {
    if GuidPreimage(e1, b1, p1) == GuidPreimage(e2, b2, p2) {
      GuidPreimageInjective(e1, b1, p1, e2, b2, p2);
    }
  }

  /**
   * The join is ambiguous once a part contains `|`: moving the bar from the
   * kind into the body gives the same identity under every hash.
   */
  lemma GuidJoinAmbiguous(hash: Hasher)
    ensures ComputeGuid(hash, "a|b", "c", "f.tex") == ComputeGuid(hash, "a", "b|c", "f.tex")
    ensures ("a|b", "c") != ("a", "b|c")
  {
    assert GuidPreimage("a|b", "c", "f.tex") == GuidPreimage("a", "b|c", "f.tex");
  }

  /**
   * The same body in two files gets two identities (given no collision),
   * whatever kind and body hold; its content digest takes no path at all.
   */
  lemma SameBodyTwoFiles(hash: Hasher, env: string, body: string, p1: string, p2: string)
    requires p1 != p2
    requires NoCollision(hash, GuidPreimage(env, body, p1), GuidPreimage(env, body, p2))
    ensures ComputeGuid(hash, env, body, p1) != ComputeGuid(hash, env, body, p2)
  {
    PreimageEndsWithPath(env, body, p1);
    PreimageEndsWithPath(env, body, p2);
  }

  /** The path is what follows kind, body and the two bars. */
  lemma PreimageEndsWithPath(env: string, body: string, path: string)
    ensures GuidPreimage(env, body, path)[|env| + |body| + 2..] == path
  {
  }

  /** The digest sees whitespace: `A B` and `A  B` get different digests unless the hash collides on them. */
  lemma ContentHashSeesWhitespace(hash: Hasher)
    requires NoCollision(hash, "A B", "A  B")
    ensures ComputeContentHash(hash, "A B") != ComputeContentHash(hash, "A  B")
  {
  }
}
