/**
 * Blocks and notes (commit/note_models.py): an extracted environment becomes
 * a block with its identity and content digest; a block becomes a two-field
 * note with a fixed set of tags; a note becomes an add-note request.
 */
module NoteModels {
  import opened Results
  import opened Text
  import opened Hashing
  import opened TexNormalize
  import opened TexParser
  import opened TexPreview

  /** `ExtractedBlock`. */
  datatype Block = Block(
    env: string,
    title: Option<string>,
    body: string,
    normalizedBody: string,
    filePath: string,
    lineNumber: int,
    guid: string,
    contentHash: string,
    rawText: string,
    neighborContext: Option<string>)

  /** Python truthiness of an optional string: present and non-empty. */
  predicate Truthy(o: Option<string>) {
    o.Some? && o.value != ""
  }

  /** `ExtractedBlock.from_environment`, with `normalize_tex` as written. */
  function FromEnvironment(hash: Hasher, e: Environment, filePath: string): (b: Block)
    ensures b.normalizedBody == NormalizeTexAsWritten(e.body)
    ensures b.contentHash == ComputeContentHash(hash, b.normalizedBody)
    ensures Truthy(e.guid) ==> b.guid == e.guid.value
    ensures !Truthy(e.guid) ==> b.guid == ComputeGuid(hash, e.env, b.normalizedBody, filePath)
    ensures b.lineNumber == e.startLine && b.filePath == filePath
    ensures (b.env, b.title, b.body, b.rawText) == (e.env, e.title, e.body, e.rawText)
    ensures b.neighborContext.None?
  {
    BlockOf(hash, e, filePath, NormalizeTexAsWritten(e.body))
  }

  /**
   * `from_environment` with nested math restored; the decision stages use
   * this one. It differs from the source only where the two normalisations do.
   */
  function FromEnvironmentCorrected(hash: Hasher, e: Environment, filePath: string): (b: Block)
    ensures b.normalizedBody == NormalizeTex(e.body)
    ensures b.contentHash == ComputeContentHash(hash, b.normalizedBody)
    ensures Truthy(e.guid) ==> b.guid == e.guid.value
    ensures !Truthy(e.guid) ==> b.guid == ComputeGuid(hash, e.env, b.normalizedBody, filePath)
    ensures b.lineNumber == e.startLine && b.filePath == filePath
    ensures (b.env, b.title, b.body, b.rawText) == (e.env, e.title, e.body, e.rawText)
    ensures b.neighborContext.None?
  {
    BlockOf(hash, e, filePath, NormalizeTex(e.body))
  }

  /** The block of an environment whose body normalises to `normalized`. */
  function BlockOf(hash: Hasher, e: Environment, filePath: string, normalized: string): Block {
    var guid := if Truthy(e.guid) then e.guid.value else ComputeGuid(hash, e.env, normalized, filePath);
    Block(e.env, e.title, e.body, normalized, filePath, e.startLine, guid,
          ComputeContentHash(hash, normalized), e.rawText, None)
  }

  /** Without nested math the corrected block is the source's block. */
  lemma CorrectedAgreesWithoutNesting(hash: Hasher, e: Environment, filePath: string)
    requires NoNestedMath(e.body)
    ensures FromEnvironmentCorrected(hash, e, filePath) == FromEnvironment(hash, e, filePath)
  {
    NoNestingAgree(e.body);
  }

  /**
   * Finding, as written: two unmarked blocks of one kind in one file whose
   * bodies are `$$\[x\]$$` and `$$\[y\]$$` get one identity and one digest,
   * because both normalise to `$$__MATH_BLOCK_0__$$`. The corrected blocks
   * keep their bodies and, given no collision, get two identities.
   */
  lemma NestedBodiesCollide(hash: Hasher, e1: Environment, e2: Environment, filePath: string, x: char, y: char)
    requires !Truthy(e1.guid) && !Truthy(e2.guid) && e1.env == e2.env
    requires e1.body == Nested(x) && e2.body == Nested(y) && x != y
    requires NoCollision(hash, GuidPreimage(e1.env, Nested(x), filePath), GuidPreimage(e1.env, Nested(y), filePath))
    ensures FromEnvironment(hash, e1, filePath).guid == FromEnvironment(hash, e2, filePath).guid
    ensures FromEnvironment(hash, e1, filePath).contentHash == FromEnvironment(hash, e2, filePath).contentHash
    ensures FromEnvironmentCorrected(hash, e1, filePath).guid != FromEnvironmentCorrected(hash, e2, filePath).guid
  {
    NestedMathAsWritten(x);
    NestedMathAsWritten(y);
    NestedMathCorrected(x);
    NestedMathCorrected(y);
    NestedPreimagesDiffer(e1.env, filePath, x, y);
  }

  lemma NestedPreimagesDiffer(env: string, filePath: string, x: char, y: char)
    requires x != y
    ensures GuidPreimage(env, Nested(x), filePath) != GuidPreimage(env, Nested(y), filePath)
  {
    var g1 := GuidPreimage(env, Nested(x), filePath);
    var g2 := GuidPreimage(env, Nested(y), filePath);
    assert g1[|env| + 5] == Nested(x)[4] == x;
    assert g2[|env| + 5] == Nested(y)[4] == y;
  }

  /**
   * The same unmarked block in two files: one content digest, two identities
   * (given no collision).
   */
  lemma SameBlockTwoFiles(hash: Hasher, e: Environment, p1: string, p2: string)
    requires !Truthy(e.guid) && p1 != p2
    requires var n := NormalizeTexAsWritten(e.body);
      NoCollision(hash, GuidPreimage(e.env, n, p1), GuidPreimage(e.env, n, p2))
    ensures FromEnvironment(hash, e, p1).contentHash == FromEnvironment(hash, e, p2).contentHash
    ensures FromEnvironment(hash, e, p1).guid != FromEnvironment(hash, e, p2).guid
  {
    SameBodyTwoFiles(hash, e.env, NormalizeTexAsWritten(e.body), p1, p2);
  }

  /** A marker fixes the identity: editing the body or moving the file keeps it, while the digest follows the body. */
  lemma MarkerKeepsIdentity(hash: Hasher, e1: Environment, e2: Environment, p1: string, p2: string)
    requires Truthy(e1.guid) && e1.guid == e2.guid
    requires NoCollision(hash, NormalizeTexAsWritten(e1.body), NormalizeTexAsWritten(e2.body))
    requires NormalizeTexAsWritten(e1.body) != NormalizeTexAsWritten(e2.body)
    ensures FromEnvironment(hash, e1, p1).guid == FromEnvironment(hash, e2, p2).guid
    ensures FromEnvironment(hash, e1, p1).contentHash != FromEnvironment(hash, e2, p2).contentHash
  {
  }

  /** Whitespace-only edits outside math leave the digest unchanged. */
  lemma LayoutEditKeepsDigest(hash: Hasher, e: Environment, body2: string, filePath: string)
    requires !Truthy(e.guid)
    requires NormalizeTexAsWritten(body2) == NormalizeTexAsWritten(e.body)
    ensures var e2 := e.(body := body2);
      && FromEnvironment(hash, e2, filePath).contentHash == FromEnvironment(hash, e, filePath).contentHash
      && FromEnvironment(hash, e2, filePath).guid == FromEnvironment(hash, e, filePath).guid
  {
  }

  /** `AnkiNote`. */
  datatype Note = Note(
    guid: string,
    deckName: string,
    modelName: string,
    fields: map<string, string>,
    tags: seq<string>,
    contentHash: string)

  /** The `addNotes` entry that `to_anki_connect_format` builds. */
  datatype AddNoteRequest = AddNoteRequest(
    deckName: string,
    modelName: string,
    fields: map<string, string>,
    allowDuplicate: bool,
    duplicateScope: string,
    tags: seq<string>,
    audio: seq<string>,
    video: seq<string>,
    picture: seq<string>)

  /**
   * `to_anki_connect_format`: duplicates are always allowed (identity is
   * tracked by the ledger instead), scoped to the deck, with no media.
   */
  function ToAnkiConnect(n: Note): (r: AddNoteRequest)
    ensures r.allowDuplicate && r.duplicateScope == "deck"
    ensures r.audio == [] && r.video == [] && r.picture == []
  {
    AddNoteRequest(n.deckName, n.modelName, n.fields, true, "deck", n.tags, [], [], [])
  }

  /** The request carries everything of the note except its identity and digest. */
  lemma ToAnkiConnectKeepsNote(n: Note)
    ensures var r := ToAnkiConnect(n);
      Note(n.guid, r.deckName, r.modelName, r.fields, r.tags, n.contentHash) == n
  {
  }

  /** The mapper's settings: course name and commit. */
  datatype Mapper = Mapper(courseName: string, commitSha: string)

  /** The four formatting styles. */
  datatype Style = DefinitionStyle | TheoremStyle | ExampleStyle | GenericStyle

  const DefinitionLike: set<string> := {"definition", "remark"}
  const TheoremLike: set<string> := {"theorem", "proposition", "lemma", "corollary"}
  const ExampleLike: set<string> := {"example"}

  /** The lookup on `env.lower()` in `map_block`. */
  function StyleOf(env: string): Style {
    var e := Lower(env);
    if e in DefinitionLike then DefinitionStyle
    else if e in TheoremLike then TheoremStyle
    else if e in ExampleLike then ExampleStyle
    else GenericStyle
  }

  /** The style depends on the name up to case only, and every name outside the three sets is generic. */
  lemma StyleOfFacts(a: string, b: string)
    ensures Lower(a) == Lower(b) ==> StyleOf(a) == StyleOf(b)
    ensures StyleOf(a) == GenericStyle <==> Lower(a) !in DefinitionLike + TheoremLike + ExampleLike
    ensures StyleOf(a) == TheoremStyle <==> Lower(a) in TheoremLike
  {
  }

  /** `str.title()` on the ASCII range: a letter is upper-cased after a non-letter and lower-cased after a letter. */
  function TitleCase(s: string): (r: string)
    ensures |r| == |s|
  {
    seq(|s|, i requires 0 <= i < |s| =>
      if i == 0 || !IsAsciiLetter(s[i - 1]) then UpperChar(s[i]) else LowerChar(s[i]))
  }

  /** A front and a back. */
  datatype Face = Face(front: string, back: string)

  /** `<div style='style'>inner</div>`. */
  function Div(style: string, inner: string): (r: string)
    ensures |r| > 0 && r[0] == '<'
  {
    "<div style='" + style + "'>" + inner + "</div>"
  }

  /** The grey source line under every back: `path:line`. */
  function SourceLine(b: Block): string {
    Div("margin-top: 1em; " + "font-size: 0.9em; color: #666;",
        "Source: <code>" + b.filePath + ":" + IntToString(b.lineNumber) + "</code>")
  }

  /** The `latex-content` division around `inner`, on lines of their own. */
  function LatexContent(inner: string): (r: string)
    ensures |r| > 0 && r[0] == '<'
  {
    "<div class=\"latex-content\">\n" + inner + "\n</div>\n"
  }

  /** The body in the `latex-content` division, then the source line (definition and generic styles). */
  function PlainBack(b: Block): string {
    LatexContent(b.body) + SourceLine(b)
  }

  /** A bold heading, the body in its own division, then the source line (theorem and example styles). */
  function HeadedBack(heading: string, b: Block): string {
    LatexContent("<strong>" + heading + ":</strong>\n" + "<div style=\"" + "margin-top: 0.5em;\">\n" + b.body + "\n</div>")
    + SourceLine(b)
  }

  /** `<Env>: <title>`, or `<Env>: <first>` with the body's first sentence when there is no title. */
  function TitledFront(b: Block, first: string): string {
    TitleCase(b.env) + ": " + (if Truthy(b.title) then b.title.value else first)
  }

  /** The definition style; `first` is the body's first sentence, cut at 80 characters. */
  function DefinitionFace(b: Block, first: string): Face {
    Face(TitledFront(b, first), PlainBack(b))
  }

  /** The theorem style; `first` is the body's first sentence, cut at 100 characters. */
  function TheoremFace(b: Block, first: string): Face {
    Face(TitledFront(b, first),
         HeadedBack(TitleCase(b.env) + (if Truthy(b.title) then " (" + b.title.value + ")" else ""), b))
  }

  /** A preview in its own division. */
  function PreviewDiv(preview: string): string {
    Div("margin-top: 0.5em;", preview)
  }

  /** The opening of an example front: the title and a preview, the preview alone, or the location. */
  function ExampleOpening(b: Block, first150: string, first200: string): (r: string)
    ensures |r| > 0 && (r[0] == '<' || r[0] == 'E')
  {
    if Truthy(b.title) then
      "<strong>Example: " + b.title.value + "</strong>"
      + (if first150 != "" then PreviewDiv(first150) else "")
    else if first200 != "" then
      var h := "<strong>Example:</strong>" + PreviewDiv(first200);
      assert h[0] == '<';
      h
    else "Example from " + b.filePath + ":" + IntToString(b.lineNumber)
  }

  /** The example style; the previews are the body's first sentence cut at 150 and at 200 characters. */
  function ExampleFace(b: Block, first150: string, first200: string): Face {
    Face(ExampleOpening(b, first150, first200)
         + Div("margin-top: 1em; color: #666; " + "font-size: 0.9em;", "What does this example " + "demonstrate?"),
         HeadedBack("Example" + (if Truthy(b.title) then ": " + b.title.value else ""), b))
  }

  /** The fallback style: as the definition style. */
  function GenericFace(b: Block, first: string): Face {
    Face(TitledFront(b, first), PlainBack(b))
  }

  /** The front and back of a block formatted in style `st`. */
  function FormatAs(st: Style, b: Block): Face {
    match st
    case DefinitionStyle => DefinitionFace(b, FirstSentence(b.body, 80))
    case TheoremStyle => TheoremFace(b, FirstSentence(b.body, 100))
    case ExampleStyle => ExampleFace(b, FirstSentence(b.body, 150), FirstSentence(b.body, 200))
    case GenericStyle => GenericFace(b, FirstSentence(b.body, 80))
  }

  /** The formatting that `map_block` dispatches to on the kind of the block. */
  function Format(b: Block): Face {
    FormatAs(StyleOf(b.env), b)
  }

  /** With a title, definition, theorem and generic fronts read `<Env>: <title>`. */
  lemma TitledFronts(b: Block)
    requires Truthy(b.title) && StyleOf(b.env) != ExampleStyle
    ensures Format(b).front == TitleCase(b.env) + ": " + b.title.value
  {
  }

  /** `s` with every character of `cs` replaced by `_`. */
  function ReplaceWithUnderscore(s: string, cs: set<char>): (r: string)
    ensures |r| == |s|
    ensures forall i :: 0 <= i < |s| ==> r[i] == (if s[i] in cs then '_' else s[i])
  {
    seq(|s|, i requires 0 <= i < |s| => if s[i] in cs then '_' else s[i])
  }

  /** `_build_tags`. */
  function BuildTags(m: Mapper, b: Block): (tags: seq<string>)
    ensures |tags| == 7
  {
    [ "auto",
      "from-tex",
      "course:" + m.courseName,
      "commit:" + PySlice(m.commitSha, 0, 8),
      "env:" + b.env,
      "file:" + ReplaceWithUnderscore(b.filePath, {'/', '\\', '.'}),
      "guid:" + PySlice(b.guid, 0, 12) ]
  }

  /**
   * The tags, in order: two fixed ones, the course, at most 8 characters of
   * the commit, the kind, the path with every separator and dot turned into
   * `_`, and at most 12 characters of the identity.
   */
  lemma BuildTagsFacts(m: Mapper, b: Block)
    ensures var tags := BuildTags(m, b);
      && tags[0] == "auto" && tags[1] == "from-tex" && tags[2] == "course:" + m.courseName
      && StartsWith(tags[3], "commit:") && StartsWith(m.commitSha, tags[3][7..]) && |tags[3]| == 7 + Min(8, |m.commitSha|)
      && tags[4] == "env:" + b.env
      && StartsWith(tags[5], "file:") && |tags[5]| == 5 + |b.filePath|
      && (forall i :: 5 <= i < |tags[5]| ==> tags[5][i] !in {'/', '\\', '.'})
      && tags[6] == "guid:" + ShortGuid(b.guid)
  {
    var tags := BuildTags(m, b);
    assert tags[3][7..] == PySlice(m.commitSha, 0, 8);
    var f := ReplaceWithUnderscore(b.filePath, {'/', '\\', '.'});
    forall i | 5 <= i < |tags[5]| ensures tags[5][i] !in {'/', '\\', '.'} {
      assert tags[5][i] == f[i - 5];
    }
  }

  /** Text holding a character that is not whitespace is not blank. */
  lemma NotBlankAt(s: string, i: nat)
    requires i < |s| && !IsSpace(s[i])
    ensures !IsBlank(s)
  {
  }

  /** `s`, or `placeholder` when `s` is blank. */
  function OrPlaceholder(s: string, placeholder: string): (r: string)
    requires |placeholder| > 0 && !IsSpace(placeholder[0])
    ensures !IsBlank(r)
    ensures !IsBlank(s) ==> r == s
  {
    if IsBlank(s) then
      NotBlankAt(placeholder, 0);
      placeholder
    else s
  }

  function Bracketed(text: string): (r: string)
    ensures |r| > 0 && r[0] == '['
  {
    "[" + text + "]"
  }

  /** `map_block`. */
  function MapBlock(m: Mapper, b: Block, deckName: string): (n: Note)
    ensures n.guid == b.guid && n.contentHash == b.contentHash && n.deckName == deckName
    ensures n.modelName == "Basic"
    ensures n.fields.Keys == {"Front", "Back"}
    ensures !IsBlank(n.fields["Front"]) && !IsBlank(n.fields["Back"])
    ensures n.tags == BuildTags(m, b)
  {
    NoteOf(m, b, deckName, Format(b))
  }

  /** The note for a block formatted as `face`, with a placeholder for a blank field. */
  function NoteOf(m: Mapper, b: Block, deckName: string, face: Face): (n: Note)
    ensures n.guid == b.guid && n.contentHash == b.contentHash && n.deckName == deckName
    ensures n.modelName == "Basic"
    ensures n.fields.Keys == {"Front", "Back"}
    ensures !IsBlank(n.fields["Front"]) && !IsBlank(n.fields["Back"])
    ensures !IsBlank(face.front) ==> n.fields["Front"] == face.front
    ensures !IsBlank(face.back) ==> n.fields["Back"] == face.back
    ensures n.tags == BuildTags(m, b)
  {
    var front := OrPlaceholder(face.front, Bracketed("Empty front - env: " + b.env));
    var back := OrPlaceholder(face.back,
      Bracketed("Empty back - check source at " + b.filePath + ":" + IntToString(b.lineNumber)));
    Note(b.guid, deckName, "Basic", map["Front" := front, "Back" := back], BuildTags(m, b), b.contentHash)
  }

  /**
   * The formatted fields are never blank, so the placeholders of `map_block`
   * are never used: the note's fields are the formatted ones.
   */
  lemma MapBlockUsesFormat(m: Mapper, b: Block, deckName: string)
    ensures var n := MapBlock(m, b, deckName);
      n.fields["Front"] == Format(b).front && n.fields["Back"] == Format(b).back
  {
    FormatNotBlank(b);
  }

  lemma FormatNotBlank(b: Block)
    ensures !IsBlank(Format(b).front) && !IsBlank(Format(b).back)
  {
    FormatAsNotBlank(StyleOf(b.env), b);
  }

  lemma FormatAsNotBlank(st: Style, b: Block)
    ensures !IsBlank(FormatAs(st, b).front) && !IsBlank(FormatAs(st, b).back)
  {
    match st
    case DefinitionStyle =>
      FacesNotBlank(b, FirstSentence(b.body, 80));
    case TheoremStyle =>
      FacesNotBlank(b, FirstSentence(b.body, 100));
    case ExampleStyle =>
      ExampleFaceNotBlank(b, FirstSentence(b.body, 150), FirstSentence(b.body, 200));
    case GenericStyle =>
      FacesNotBlank(b, FirstSentence(b.body, 80));
  }

  lemma FacesNotBlank(b: Block, first: string)
    ensures !IsBlank(TitledFront(b, first))
    ensures !IsBlank(PlainBack(b)) && !IsBlank(TheoremFace(b, first).back)
  {
    var f := TitledFront(b, first);
    assert f[|TitleCase(b.env)|] == ':';
    NotBlankAt(f, |TitleCase(b.env)|);
    HeadedBackNotBlank(TitleCase(b.env) + (if Truthy(b.title) then " (" + b.title.value + ")" else ""), b);
    var p := PlainBack(b);
    assert p[0] == LatexContent(b.body)[0];
    NotBlankAt(p, 0);
  }

  lemma HeadedBackNotBlank(heading: string, b: Block)
    ensures !IsBlank(HeadedBack(heading, b))
  {
    var h := HeadedBack(heading, b);
    assert h[0] == '<';
    NotBlankAt(h, 0);
  }

  lemma ExampleFaceNotBlank(b: Block, first150: string, first200: string)
    ensures !IsBlank(ExampleFace(b, first150, first200).front) && !IsBlank(ExampleFace(b, first150, first200).back)
  {
    var face := ExampleFace(b, first150, first200);
    var o := ExampleOpening(b, first150, first200);
    assert face.front[0] == o[0];
    NotBlankAt(face.front, 0);
    HeadedBackNotBlank("Example" + (if Truthy(b.title) then ": " + b.title.value else ""), b);
  }
}
