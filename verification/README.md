# LaTeX notes to flashcards: a Dafny model of the sync engine

This project models the engine that turns LaTeX lecture notes into
flashcard sync decisions. It then proves properties of that model.

The engine works in five stages:

- **Extraction.** It finds `\begin{env}[title] … \end{env}` blocks in a file
  whose comment lines have been blanked. It numbers their lines and looks
  for an identity marker (`% anki-tex-guid: <hex>`) in the 20 lines above
  each block.
- **Normalisation.** It collapses whitespace outside math spans.
- **Identity.** Each block gets an identity and a content digest. The
  identity is a hash of kind, body and path. The digest is a hash of the
  body alone.
- **Decision.** It compares each block against a ledger of what was synced
  before, and decides whether to create, update or skip a flashcard.
- **Sync.** It syncs offline (an exported package) or online (calls to the
  flashcard application). It records the results in the ledger.

Supporting logic is modelled too:

- the block-to-note mapping and its tags;
- the glob filter that selects which changed files to read;
- the LaTeX safety layer applied before text goes to an assistant model;
- the preview and neighbour-context helpers;
- the function that writes identity markers back into sources.

The model is functional. Python's operations are modelled as follows:

- Strings are `seq<char>`.
- The ledger is an immutable value with a `map<string, Entry>` of notes.
- SHA-1 is a function parameter (`Hashing.Hasher`). Facts that need its
  shape or its freedom from collisions take those as hypotheses.
- The clock (`now`), the application's replies and the assistant's reply
  are parameters.
- The file edit of `inject_guid_comment` is a function on the file's lines.

Python behaviours the code relies on are written out:

- slicing with negative bounds (`Text.PySlice`);
- `str.strip`;
- `str.split('\n')` and its inverse;
- `re.sub` with a pattern that never matches the empty string
  (`Text.SubAll`);
- the `^…$` anchoring of `re.match`, including `$` before a final line feed;
- the template parser of `re.sub`.

Where the source is evidently wrong (see Findings), the model carries the
code as written and the corrected code side by side:

- `TexNormalize.NormalizeTexAsWritten` and `TexNormalize.NormalizeTex`;
- `Decisions.ResolveShortGuidAsWritten` and `Decisions.ResolveShortGuid`;
- `TexInject.InjectGuidCommentAsWritten` and `TexInject.InjectGuidComment`;
- the `AsWritten` and `ByNote` keyings of the online sync loop;
- the `AsWritten` and `Intended` variants of the safety layer.

Block construction (`NoteModels.FromEnvironment`) uses the normalisation
as written, as the source does; `NoteModels.FromEnvironmentCorrected` uses
the corrected one, and the two agree on bodies without nested math.

Everything else models the code as written. One consequence is proved
rather than fixed. `inject_guid_comment` writes its marker on a comment line
of its own, but extraction blanks comment lines before it searches for
markers. So a marker written that way is never read back
(`TexParser.OwnLineMarkersNeverFound`).

The modules are:

| module | file | models |
|---|---|---|
| `Results` | results.dfy | `Option` and `Result` wrappers |
| `Text` | text.dfy | the Python string operations used throughout |
| `Hashing` | hashing.dfy | renforce/hashing.py |
| `TexParser` | parser.dfy | `extract_environments` |
| `TexNormalize` | normalize.dfy | `normalize_tex` |
| `TexNormalizeFixpoint` | normalize_fixpoint.dfy | why `normalize_tex` is idempotent |
| `TexPreview` | preview.dfy | `get_first_sentence`, `extract_neighbor_context` |
| `TexInject` | inject.dfy | `inject_guid_comment` on a line sequence |
| `NoteModels` | notes.dfy | commit/note_models.py |
| `Ledger` | ledger.dfy | commit/state.py |
| `Decisions` | decisions.dfy | the decision kernels of commit/processor.py |
| `Sync` | sync.dfy | the offline and online record loops of commit/processor.py |
| `PathFilter`, `GlobCases` | globs.dfy, glob_cases.dfy | the glob filter of commit/git_utils.py |
| `LatexSafety`, `LatexSafetyCases` | security.dfy, security_cases.dfy | commit/security.py |

The repository has two packages, `commit` and `renforce`. Code in `commit`
imports hashing and parsing from its own package, but the definitions shown
are in `renforce`. They are treated as the same code.

`validate_card_content` is imported by commit/processor.py:15, but
commit/note_models.py does not define it. It is modelled on the inline rule
at commit/processor.py:606-614, which it replaced: the front must be
non-empty, and a `Basic` card also needs a non-empty back.

## Model

| member | source | states |
|---|---|---|
| Hashing.ComputeGuid | renforce/hashing.py:7-37 | the identity is a 40-character lower-case hex digest whenever the hash always returns one |
| Hashing.ComputeContentHash | renforce/hashing.py:40-63 | the digest of a body is a 40-character lower-case hex digest whenever the hash always returns one |
| Hashing.ShortHash | renforce/hashing.py:66-86 | the short form is the prefix of length `min(n, len)` of the full hash, and the whole hash when it is no longer than `n` |
| Hashing.ShortGuid | renforce/hashing.py:66-86 | the default 12-character short form is a prefix of the identity of length `min(12, len)` |
| Hashing.Matching | renforce/hashing.py:108 | the candidate list holds exactly the listed identities that start with the short form; it is empty iff no position matches |
| Hashing.MatchShortGuidToFull | renforce/hashing.py:89-116 | a full identity is returned iff exactly one listed position starts with the short form, and it is that identity; zero or several matches give nothing |
| Hashing.MatchingOfUnique | renforce/hashing.py:108-111 | when exactly one position matches, the candidate list is that one identity |
| Hashing.MatchingSingletonIsUnique | renforce/hashing.py:108-111 | a one-element candidate list comes from exactly one matching position (the converse of `MatchingOfUnique`) |
| Hashing.ComputeBlockSignature | renforce/hashing.py:119-149 | the signature starts with the kind and ends with `@path:line`; a non-empty title appears in brackets after the kind and the length leaves room for nothing else, so the value is exactly `kind[title]@path:line`; without a title nothing else is added |
| Hashing.GuidPreimageInjective | renforce/hashing.py:33 | the `\|` join determines its three parts when kind and body contain no `\|` |
| Hashing.GuidSeparatesInputs | renforce/hashing.py:33-37 | changing any of kind, body or path changes the identity, given no `\|` in kind or body and no collision on the two joined texts |
| Hashing.GuidJoinAmbiguous | renforce/hashing.py:33 | with a `\|` inside a part, two different kind/body pairs give the same identity under every hash |
| Hashing.SameBodyTwoFiles | renforce/hashing.py:33-63 | one body in two files gets two identities, given no collision |
| Hashing.ContentHashSeesWhitespace | renforce/hashing.py:62-63 | `A B` and `A  B` get different digests unless the hash collides on them, so normalisation must come first |
| Text.LStrip | renforce/tex_parser.py:56 | `lstrip()` removes exactly the leading whitespace run; the result is empty iff the text is all whitespace |
| Text.RStrip | renforce/tex_parser.py:147 | `rstrip()` removes exactly the trailing whitespace run; the result is empty iff the text is all whitespace |
| Text.Strip | renforce/tex_parser.py:147-176 | `strip()` leaves text that neither starts nor ends with whitespace |
| Text.StripUnchanged | renforce/tex_parser.py:176 | text that neither starts nor ends with whitespace is its own strip |
| Text.Lines | renforce/tex_parser.py:53-82 | `split('\n')` is never empty and no piece holds a newline |
| Text.LinesCount | renforce/tex_parser.py:93-94 | splitting gives one more piece than there are newlines |
| Text.LinesUnlines | renforce/tex_parser.py:53-63 | joining newline-free lines and splitting again gives the lines back |
| Text.UnlinesLines | renforce/tex_parser.py:53-63 | splitting and joining again gives the text back |
| Text.LineOfPosition | renforce/tex_parser.py:91-94 | a character other than a newline sits on the line numbered by the newlines before it |
| Text.ContainsIffOccurs | commit/security.py:98-104 | Python's `w in s` holds iff `w` occurs at some index |
| Text.SubAllNoMatch | commit/security.py:55-79 | a `re.sub` whose pattern matches nowhere leaves the text unchanged |
| TexParser.BlankComments | renforce/tex_parser.py:53-61 | every comment line becomes empty and every other line is kept; the line count is unchanged |
| TexParser.CleanContentLines | renforce/tex_parser.py:53-82 | line `k` of the cleaned text is line `k` of the input, or empty |
| TexParser.FindFrom | renforce/tex_parser.py:76-77 | the end tag found is the first occurrence at or after the start |
| TexParser.MatchEnvAt | renforce/tex_parser.py:73-79 | a match at `p` begins with `\begin{env}` at `p`, ends with `\end{env}`, and has a body with no earlier end tag of that name |
| TexParser.MatchEnvAtSome | renforce/tex_parser.py:73-79 | a begin tag matches iff an end tag of the same name follows it |
| TexParser.MatchAt | renforce/tex_parser.py:74 | the name alternation matches at `p` iff one of the requested names does, and the match is for a requested name |
| TexParser.FindAll | renforce/tex_parser.py:84 | `finditer` yields valid matches of requested names, in order, with no overlap |
| TexParser.FindAllLeftmost | renforce/tex_parser.py:84 | each match found is the match at its own start, and no position outside the found matches starts a match |
| TexParser.UnterminatedYieldsNothing | renforce/tex_parser.py:73-79 | with no end tag for any requested name, nothing is extracted |
| TexParser.TitledBlock | renforce/tex_parser.py:75-88 | `\begin{e}[x]b\end{e}` yields title `x` and the body `b` verbatim |
| TexParser.TitledMatch | renforce/tex_parser.py:75-77 | the title runs to the first `]`, and the body runs to the first end tag after it |
| TexParser.HexRun | renforce/tex_parser.py:104 | the hex run is the longest run of case-insensitive hex digits at the start |
| TexParser.MarkerSpanAt | renforce/tex_parser.py:104 | a marker match starts with `%` and captures 8 to 40 hex digits |
| TexParser.MarkerAt | renforce/tex_parser.py:104 | the captured group holds 8 to 40 hex digits and the match starts at a `%` |
| TexParser.SearchMarker | renforce/tex_parser.py:108-110 | a marker found in a line holds 8 to 40 characters |
| TexParser.NearestLine | renforce/tex_parser.py:107-111 | the reversed search stops at the last line that has a marker; no line after it has one, and with no such line none does |
| TexParser.RawTextTags | renforce/tex_parser.py:88 | the raw text starts with the begin tag and ends with the end tag |
| TexParser.ExtractEnvironments | renforce/tex_parser.py:21-125 | an empty name list gives nothing; every block is of a requested kind, and its raw text is framed by its tags |
| TexParser.ExtractLineNumbers | renforce/tex_parser.py:90-94 | line numbers are 1-based, a block ends on or after its start line, and blocks follow one another |
| TexParser.CommentedBlocksSkipped | renforce/tex_parser.py:51-63 | the start line of every extracted block is not a comment line of the input |
| TexParser.MarkerWindow | renforce/tex_parser.py:96-111 | a block's marker is the nearest one among the blanked lines, up to 20 lines above its begin line and including that line |
| TexParser.MarkerLineFound | renforce/tex_parser.py:104-111 | the marker search recognises the marker line that injection writes |
| TexParser.MarkerLineSpan | renforce/tex_parser.py:104 | the written marker line is one whole marker match, with prefix `% anki-tex-guid: ` |
| TexParser.MarkerLineIsComment | renforce/tex_parser.py:53-63 | the written marker line is a comment line, so blanking empties it |
| TexParser.BlankedWindowHasNoMarker | renforce/tex_parser.py:82-111 | a window of blanked lines holds no marker when every marker was on a comment line |
| TexParser.OwnLineMarkersNeverFound | renforce/tex_parser.py:63-111 | when markers occur only on comment lines, as injection writes them, no block gets a marker |
| TexNormalize.SpanLen | renforce/tex_parser.py:157-163 | a protected math span is at least two tokens long |
| TexNormalize.ProtectPass | renforce/tex_parser.py:153-163 | a protect pass only appends spans to the saved list |
| TexNormalize.ProtectPassSound | renforce/tex_parser.py:153-163 | a protect pass keeps the saved state well formed and loses no text |
| TexNormalize.ProtectMathRoundTrip | renforce/tex_parser.py:149-163 | expanding the protected text gives the input back, so math spans are kept verbatim |
| TexNormalize.CollapseBlanks | renforce/tex_parser.py:167 | `[ \t]+` to one space keeps the first token, or turns it into a space, and is empty only on empty input |
| TexNormalize.CollapseNewlines | renforce/tex_parser.py:170 | `\n\n+` to two newlines keeps the first token and is empty only on empty input |
| TexNormalize.CollapseBlanksFacts | renforce/tex_parser.py:167 | after the blank collapse no two blanks are adjacent outside math, and every placeholder survives in order |
| TexNormalize.CollapseNewlinesNoTriple | renforce/tex_parser.py:170 | after the newline collapse no three newlines are adjacent outside math |
| TexNormalize.CollapseNewlinesKeepsNoBlankRuns | renforce/tex_parser.py:167-170 | the newline collapse creates no new run of blanks |
| TexNormalize.CollapseNewlinesKeepsPlaceholders | renforce/tex_parser.py:170 | the newline collapse keeps every placeholder in order |
| TexNormalize.CollapseWhitespaceFacts | renforce/tex_parser.py:165-170 | after step 3 there are no blank runs and no triple newlines outside math, and every placeholder is still there |
| TexNormalize.NormalizeKeepsMath | renforce/tex_parser.py:147-174 | collapsing keeps every protected span, and the spans expand back to the stripped input |
| TexNormalize.NormalizeTexAsWritten | renforce/tex_parser.py:128-176 | the output as written neither starts nor ends with whitespace |
| TexNormalize.NormalizeTex | renforce/tex_parser.py:128-176 | the corrected output neither starts nor ends with whitespace (its idempotence is `TexNormalizeFixpoint.NormalizeIdempotent`) |
| TexNormalize.NestedMathAsWritten | renforce/tex_parser.py:172-174 | as written, `$$\[x\]$$` normalises to placeholder text, whatever `x` is |
| TexNormalize.NestedMathCorrected | renforce/tex_parser.py:172-174 | with the corrected restore, `$$\[x\]$$` normalises to itself |
| TexNormalize.NoNestingAgree | renforce/tex_parser.py:172-174 | when no protected span holds another, restoring in ascending order gives the corrected output |
| TexNormalizeFixpoint.NormalizeIdempotent | renforce/tex_parser.py:128-176 | normalising normalised content again changes nothing |
| TexNormalizeFixpoint.NormalizeAsWrittenIdempotent | renforce/tex_parser.py:128-176 | the normalisation as written is idempotent on content without nested math |
| TexNormalizeFixpoint.NormalizeTexReprotect | renforce/tex_parser.py:147-176 | protecting the output again finds the first run's spans, in the same order; the text between them has no blank runs and no triple newlines, and the spans expand back to the output |
| TexNormalizeFixpoint.ReprotectSameSkeleton | renforce/tex_parser.py:149-163 | protecting text whose whitespace runs differ only in length finds the same spans, and the text keeps its first and last non-blank character |
| TexNormalizeFixpoint.Rescan | renforce/tex_parser.py:153-163 | one protect pass finds its spans at the same places in two texts whose whitespace runs differ only in length |
| TexNormalizeFixpoint.SpanZeroSk | renforce/tex_parser.py:157-163 | whether a math span starts at a point does not depend on the length of whitespace runs |
| TexNormalizeFixpoint.SpanLenPositive | renforce/tex_parser.py:157-163 | a span starts exactly when its opening delimiter is followed, later on, by its closing one; an inline span needs a non-`$` character first |
| TexNormalizeFixpoint.SpanLenPrefix | renforce/tex_parser.py:157-163 | the lazy match: the span found at a point does not depend on the text after its closing delimiter |
| TexNormalizeFixpoint.PassUndone | renforce/tex_parser.py:153-163 | putting back the spans a pass saved gives the pass's input |
| TexNormalizeFixpoint.PassSpansShaped | renforce/tex_parser.py:153-163 | every saved span starts with `\` or `$` and ends with `]` or `$`, and names only spans saved by earlier passes |
| TexNormalizeFixpoint.StageFacts | renforce/tex_parser.py:157-163 | each of the three passes is undone by putting back its own spans |
| TexNormalizeFixpoint.CollapseBlanksFixed | renforce/tex_parser.py:167 | text without tabs or adjacent blanks is left alone by `[ \t]+` to one space |
| TexNormalizeFixpoint.CollapseNewlinesFixed | renforce/tex_parser.py:170 | text without three adjacent newlines is left alone by `\n\n+` to two newlines |
| TexNormalizeFixpoint.CollapseWhitespaceIdempotent | renforce/tex_parser.py:165-170 | the two substitutions, applied again, change nothing |
| TexNormalizeFixpoint.SkCollapseBlanks | renforce/tex_parser.py:167 | the blank collapse changes only the length and make-up of whitespace runs |
| TexNormalizeFixpoint.SkCollapseNewlines | renforce/tex_parser.py:170 | the newline collapse changes only the length of whitespace runs |
| TexPreview.SentenceLen | renforce/tex_parser.py:258 | the first-sentence group ends at the first terminator, has at least one character before it, and is followed by whitespace or the end |
| TexPreview.SentenceLenComplete | renforce/tex_parser.py:258 | any prefix with that shape is the one found (the converse) |
| TexPreview.LastIndex | renforce/tex_parser.py:269 | the index found holds the last occurrence of the character, and with none found no position holds it |
| TexPreview.BeforeLastBlank | renforce/tex_parser.py:269 | `rsplit(" ", 1)[0]` is a prefix that is the whole text or is followed by a blank |
| TexPreview.FirstSentence | renforce/tex_parser.py:223-270 | the preview is at most `max_length + 3` characters long |
| TexPreview.PreviewTextStripped | renforce/tex_parser.py:244-253 | the text the sentence is taken from neither starts nor ends with whitespace |
| TexPreview.FirstSentenceShape | renforce/tex_parser.py:258-270 | the result is a prefix of the cleaned text, possibly followed by `...`; a first sentence that fits is returned whole |
| TexPreview.TruncatesAtBlank | renforce/tex_parser.py:264-270 | a cut keeps at most `max_length` characters, followed by a blank in the text, unless the first `max_length` characters hold no blank |
| TexPreview.NeighborContext | renforce/tex_parser.py:349-402 | the context is empty iff there are no lines before or after; a present part starts with its header |
| TexPreview.ContextAroundBlock | renforce/tex_parser.py:378-391 | the context holds up to `total // 2` lines just above the block and up to `total - total // 2` just below, and no line of the block |
| TexInject.ParseRewriteTemplate | renforce/tex_parser.py:329 | the template `\1` plus the short form keeps group 1 iff the short form does not start with a digit |
| TexInject.InjectGuidCommentAsWritten | renforce/tex_parser.py:273-346 | as written, success implies the line number is in range; for a line in range the call fails iff the window holds a marker and the template does not parse; a success keeps or grows the file by one line |
| TexInject.InjectGuidComment | renforce/tex_parser.py:308-311 | the corrected call fails iff the line number is out of range |
| TexInject.InjectInserts | renforce/tex_parser.py:336-339 | with no marker in the window, one 12-character marker line is inserted just above the begin line and every other line keeps its order |
| TexInject.InjectRewritesNearest | renforce/tex_parser.py:313-334 | with a marker in the window, only the nearest marker line is rewritten |
| TexInject.NearestRewritten | renforce/tex_parser.py:325-334 | the rewritten line is the last marker line of the window |
| TexInject.InjectRewriteShape | renforce/tex_parser.py:325-334 | the result is the input with only that line replaced, flagged as modified iff it changed |
| TexInject.RewriteMarkerLine | renforce/tex_parser.py:320-329 | rewriting a written marker line keeps its prefix and replaces the old short form with the new one |
| TexInject.InjectKeepsCurrentMarker | renforce/tex_parser.py:331-334 | when the nearest marker already carries the short form, nothing changes |
| TexInject.GrowingCallInserted | renforce/tex_parser.py:336-339 | a call that adds a line has inserted the marker just above the begin line |
| TexInject.RepeatCallChangesNothing | renforce/tex_parser.py:313-339 | with the corrected function, calling again with the begin line shifted by the insertion changes nothing |
| TexInject.ShortGuidOfDigest | renforce/tex_parser.py:296 | the short form of a digest is 12 lower-case hex characters |
| TexInject.AsWrittenRewriteNotSaved | renforce/tex_parser.py:334-344 | as written, a window with a marker leaves the file as it was |
| TexInject.RewriteBranches | renforce/tex_parser.py:325-344 | both versions return the same flag, but only the corrected one changes the line |
| TexInject.RewriteNotSaved | renforce/tex_parser.py:331-334 | a concrete layout where "modified" is returned but the old marker stays |
| TexInject.DigitGuidFails | renforce/tex_parser.py:329 | a short form starting with `8` or `9` (or a digit and then a non-octal character) makes the call fail, while the corrected call writes the marker |
| TexInject.AsWrittenTemplateFails | renforce/tex_parser.py:329 | a template that does not parse makes the call fail whenever the window has a marker |
| TexInject.OctalGuidExample | renforce/tex_parser.py:329 | a short form starting with two octal digits turns `\1` and those digits into an octal escape, so the prefix is lost |
| TexInject.InjectFindingExamples | renforce/tex_parser.py:329-334 | concrete calls showing both failures |
| TexInject.AsWrittenAgreesWithoutMarker | renforce/tex_parser.py:313-339 | with no marker in the window, the function as written equals the corrected one and inserts the marker line just above the begin line |
| TexInject.GrowingCallInsertedAsWritten | renforce/tex_parser.py:336-339 | as written, a call that adds a line has inserted the marker just above the begin line |
| TexInject.SubMarkerLine | renforce/tex_parser.py:329 | any template applied to a written marker line replaces the whole line by the template's filling of its prefix |
| TexInject.TemplateOnMarkerLine | renforce/tex_parser.py:329-331 | a parsed template leaves the marker of the same short form unchanged iff the short form does not start with a digit |
| TexInject.RepeatCallAsWritten | renforce/tex_parser.py:313-334 | as written, the repeat call after an insertion leaves the file as it is, fails iff the template does not parse, reports no change when the short form starts with a letter, and reports a change when it starts with a digit |
| NoteModels.FromEnvironment | commit/note_models.py:27-63 | the block's body is normalised as written and its digest hashes that; a marker present is used verbatim as the identity, even a short one, and otherwise the identity is computed |
| NoteModels.SameBlockTwoFiles | commit/note_models.py:41-63 | an unmarked block in two files has one digest and two identities |
| NoteModels.FromEnvironmentCorrected | commit/note_models.py:27-63 | the same construction with the corrected normalisation |
| NoteModels.CorrectedAgreesWithoutNesting | commit/note_models.py:41 | for a body with no math span nested in another, both constructions give the same block |
| NoteModels.NestedBodiesCollide | commit/note_models.py:41-63 | as written, `$$\[x\]$$` and `$$\[y\]$$` of one kind in one file get the same digest and the same identity; with the corrected normalisation their identities differ, given no collision |
| NoteModels.MarkerKeepsIdentity | commit/note_models.py:44-46 | a marker keeps the identity across edits and moves, while the digest follows the body |
| NoteModels.LayoutEditKeepsDigest | commit/note_models.py:41-63 | edits that normalise away leave digest and identity unchanged |
| NoteModels.ToAnkiConnect | commit/note_models.py:76-95 | requests always allow duplicates, scoped to the deck, with no media |
| NoteModels.ToAnkiConnectKeepsNote | commit/note_models.py:76-95 | the request carries everything of the note except identity and digest |
| NoteModels.StyleOfFacts | commit/note_models.py:101-147 | the style depends on the name up to case; generic iff the lower-cased name is in none of the sets; theorem iff it is in the theorem set |
| NoteModels.TitleCase | commit/note_models.py:177 | `str.title()` keeps the length |
| NoteModels.TitledFronts | commit/note_models.py:176-257 | with a title, non-example fronts read `<Env>: <title>` |
| NoteModels.ReplaceWithUnderscore | commit/note_models.py:283 | each character of the set becomes `_` and every other character is kept |
| NoteModels.BuildTags | commit/note_models.py:270-287 | there are exactly seven tags |
| NoteModels.BuildTagsFacts | commit/note_models.py:270-287 | the tags in order: two fixed ones, course, 8 characters of commit, kind, path with `/`, `\` and `.` replaced, and 12 characters of identity |
| NoteModels.OrPlaceholder | commit/note_models.py:153-160 | a blank value is replaced by its placeholder and a non-blank one is kept |
| NoteModels.MapBlock | commit/note_models.py:121-169 | the note keeps the block's identity and digest and takes the given deck; the model is `Basic`, the fields are exactly Front and Back, neither blank, and the tags are the built ones |
| NoteModels.NoteOf | commit/note_models.py:149-169 | a non-blank formatted face is used as it is |
| NoteModels.MapBlockUsesFormat | commit/note_models.py:133-160 | the formatted faces are never blank, so the placeholders are never used |
| NoteModels.FormatNotBlank | commit/note_models.py:171-268 | every style yields a non-blank front and back |
| Ledger.DefaultState | commit/state.py:56-63 | the default has no commit, no notes, no audit entries, and version 0.2.0 |
| Ledger.Load | commit/state.py:35-54 | a missing file, an I/O error or text that is not JSON gives the default, and missing keys get their defaults; bytes that are not UTF-8 raise, and so does a top level that is not an object, unless it is a string or list in which all three key names occur, which is then kept as the state |
| Ledger.LoadCorrected | commit/state.py:35-54 | the load that starts fresh on any file that does not decode to a dictionary: it agrees with `Load` wherever that gives a state, and gives the default where it raises |
| Ledger.CorruptFileEndsRun | commit/state.py:40-54 | a non-UTF-8 file, `null`, a number, an empty list or an empty string raises out of the load, and a list of the three key names is kept as the state; the corrected load gives the default |
| Ledger.LoadSaved | commit/state.py:35-80 | loading what was saved gives the same state, with either load |
| Ledger.SetLastSha | commit/state.py:82-88 | the commit pointer reads back as the one set, and nothing else changes |
| Ledger.RecordNote | commit/state.py:111-145 | the entry gets id, deck, digest and update time; creation time is kept for an existing entry and set for a new one; other entries are unchanged |
| Ledger.RecordedIsUnchanged | commit/state.py:90-145 | after recording a digest the note is seen, unchanged for that digest, and changed for any other |
| Ledger.GetNoteInfo | commit/state.py:147-157 | info is present iff the note is seen, and it is the stored entry |
| Ledger.GetAnkiNoteId | commit/state.py:159-162 | an unseen identity has no external id, and a seen one returns the id stored with it |
| Ledger.RecordedNoteId | commit/state.py:111-162 | after recording, the external id reads back |
| Ledger.GetStats | commit/state.py:168-175 | the total is the number of entries, and the decks are exactly those of some entry |
| Ledger.RecordGeneration | commit/state.py:183-206 | one audit key is overwritten and nothing else changes |
| Ledger.GetGenerationHistory | commit/state.py:208-218 | history is present iff the key is, and it is the stored record |
| Ledger.RecordedGenerationFound | commit/state.py:183-218 | the recorded generation is returned for its key, and other keys are unaffected |
| Ledger.ClearGenerationHistory | commit/state.py:220-222 | only the audit map is emptied |
| Ledger.Clear | commit/state.py:164-181 | clearing gives the default state |
| Ledger.Without | commit/state.py:266-274 | exactly the given identities are gone and the rest keep their entries |
| Ledger.RemainingIsWithout | commit/state.py:266-272 | deleting one by one leaves the notes not listed so far |
| Ledger.FirstPresent | commit/state.py:266-274 | the reference for the count holds each present listed identity exactly once |
| Ledger.RemovedCountsFirstPresent | commit/state.py:266-274 | the loop's count equals that reference count |
| Ledger.RemoveKeys | commit/state.py:266-274 | the loop removes exactly the listed identities that are present and counts each once |
| Ledger.RemoveNotesByGuids | commit/state.py:256-274 | listed identities are removed, other entries and fields are untouched, and duplicates count once |
| Ledger.GetAllNoteGuids | commit/state.py:276-283 | the result lists every key exactly once |
| Decisions.Classify | commit/processor.py:326-337 | create iff unseen; update iff seen with a different digest; otherwise skip |
| Decisions.ClassifyAfterRecord | commit/processor.py:326-337 | after a record, the same content is skipped, other content is updated, and other identities are unaffected |
| Decisions.TallyTotal | commit/processor.py:326-337 | exactly one counter moves per action |
| Decisions.BasicActions | commit/processor.py:326-356 | there is one action per block, in order |
| Decisions.ClassifyBlocks | commit/processor.py:326-356 | the loop produces those actions, and the counters sum to the number of blocks |
| Decisions.BasicNotesKeepIdentity | commit/processor.py:326-341 | basic notes keep their block's identity and digest, so the rule applies to the note |
| Decisions.ResolveShortGuidAsWritten | commit/processor.py:207-250 | as written, resolution raises iff the marker is shorter than 40 characters |
| Decisions.ResolveShortGuid | commit/processor.py:207-217 | a unique prefix match replaces the identity; otherwise the block is unchanged and keeps the short marker |
| Decisions.MarkerLeadsBackToEntry | commit/processor.py:207-217 | a 12-character marker of a stored identity, unshared, leads back to that entry, and the block is not a create |
| Decisions.BlocksBeforeError | commit/processor.py:204-250 | a file contributes the blocks before the first error, and an error is recorded iff one occurred |
| Decisions.FileBlocksAsWritten | commit/processor.py:204-250 | a file contributes at most one block per environment |
| Decisions.FileBlocks | commit/processor.py:204-217 | with corrected resolution, a file contributes one block per environment, keeping kind and line |
| Decisions.ShortMarkerDropsFile | commit/processor.py:207-250 | as written, a short marker on the first block drops the whole file |
| Decisions.NoShortMarkersAgree | commit/processor.py:204-217 | without short markers or nested math, both versions agree |
| Decisions.ValidateCardContent | commit/processor.py:606-614 | valid iff the front is non-empty and a `Basic` card has a non-empty back |
| Decisions.FirstComponent | commit/processor.py:693 | `split('/')[0]` is a slash-free prefix ending at the first slash |
| Decisions.WithStandardTags | commit/processor.py:687-693 | the card's tags are kept as a prefix; `auto` and `from-tex` are added once each if missing; the course and top-directory tags come last |
| Decisions.CreateNoteFromCard | commit/processor.py:656-711 | a note exists iff the card is valid; its identity hashes `env::llm`, `front\|back` and path, and its digest hashes `front\|back` |
| Decisions.DerivedIdentityFromContent | commit/processor.py:695-702 | a derived identity depends only on kind, file and the card's text |
| Decisions.DerivedDiffersFromBlock | commit/processor.py:695-702 | a derived identity never equals the identity of an unmarked block, given no collision |
| Decisions.LookupIndex | commit/processor.py:794-798 | a missing or too-large index is ignored; a negative index counts from the end; one below minus the size raises |
| Decisions.CardActions | commit/processor.py:803-821 | only valid cards yield actions, each classified on its own identity |
| Decisions.CardActionsCount | commit/processor.py:803-821 | every valid card yields exactly one action |
| Decisions.ParseSelections | commit/processor.py:793-821 | parsing fails iff some index raises; every action is classified and belongs to an offered block |
| Decisions.IgnoredSelection | commit/processor.py:795-796 | missing or too-large indices contribute nothing |
| Decisions.LastBlockByNegativeIndex | commit/processor.py:795-799 | index -1 selects the last block |
| Decisions.Fallback | commit/processor.py:845-860 | there is one action per block, in order |
| Decisions.FallbackNeverUpdates | commit/processor.py:851-858 | the fallback creates iff unseen and otherwise skips, even when the content changed |
| Decisions.TagCard | commit/processor.py:679-693 | a valid card with a `tags` list gets the standard tags appended to that list; other cards and every other field are unchanged |
| Decisions.TagSelections | commit/processor.py:793-806 | the cards of each selection that leads to a block are seen, up to the first selection whose index raises; later selections stay as received |
| Decisions.LoggedReply | commit/processor.py:779-806 | the audit map holds the reply object with its selections' cards as the loop left them; skipped indices and summary are unchanged |
| Decisions.LoggedCardHoldsNoteTags | commit/processor.py:679-806 | a valid card with `tags`, reached before any raise, is logged with exactly the note's tags, so the logged reply differs from the reply as received |
| Decisions.UntaggedReplyLoggedAsIs | commit/processor.py:679-806 | a reply none of whose cards carries `tags` is logged as received |
| Decisions.GenerateBatch | commit/processor.py:714-860 | nothing for no blocks; the fallback on failure; the reply object is logged to the audit map as the card loop leaves it, with tags appended to its valid cards; the reply's actions are the parsed selections unless a selected index, a skipped index or the summary raises, and then the fallback; notes and commit are untouched |
| Decisions.SkippedRaises | commit/processor.py:824-830 | logging the skipped blocks raises iff some index is below minus the batch size |
| Decisions.ParseReply | commit/processor.py:786-843 | handling the reply raises iff a selected index raises, a skipped index raises, or the summary is truthy and not a dict; otherwise it gives the parsed selections |
| Decisions.SkippedIndexFallsBack | commit/processor.py:824-848 | a skipped index below minus the batch size discards the selections for the fallback |
| Decisions.NonDictSummaryFallsBack | commit/processor.py:833-848 | a truthy summary that is not a dict discards the selections for the fallback |
| Decisions.CleanReplyKeepsSelections | commit/processor.py:786-843 | with no skipped blocks and a dict or falsy summary, the parsed selections are returned |
| Decisions.BatchActionsFromOfferedBlocks | commit/processor.py:714-860 | every action belongs to an offered block |
| Sync.Exported | commit/processor.py:374-382 | exported notes are exactly those of create/update actions; the export is empty iff there are none |
| Sync.RecordOfflineFacts | commit/processor.py:389-398 | each pending block is recorded without an external id, and others are untouched |
| Sync.OfflineSync | commit/processor.py:372-400 | nothing to export leaves the ledger unchanged; otherwise the commit pointer moves and the audit map is kept |
| Sync.OfflineRecordsPending | commit/processor.py:389-398 | every exported action's block is seen, with no external id |
| Sync.RecordIfId | commit/processor.py:459-465 | the ledger changes only on a truthy id |
| Sync.AddAndRecord | commit/processor.py:455-465 | the add call is sent; a failed call aborts without touching the ledger |
| Sync.OnlineStep | commit/processor.py:429-532 | a skip, or any action after an abort, changes nothing; a step aborts iff it sends a call and the reply is a failure, and then the ledger is untouched; calls only accumulate; the commit and audit map are untouched |
| Sync.OnlineRun | commit/processor.py:429-532 | calls only accumulate; an abort needs a failed reply, and with every reply answered the run does not abort |
| Sync.FinishOnline | commit/processor.py:535-541 | after an abort the ledger is the one the run started from; otherwise the commit pointer moves |
| Sync.SyncOnline | commit/processor.py:418-541 | unless the run aborts, the commit pointer is set to the commit; an aborted run leaves the ledger as it was and had a failed reply; with every reply answered it does not abort |
| Sync.SyncOnlineByNote | commit/processor.py:418-541 | the same with the corrected keying |
| Sync.FailedAddAborts | commit/processor.py:455-541 | a failed add for a new card ends the run after that one call, with the ledger as it was |
| Sync.CreateOfSeenIsDuplicate | commit/processor.py:449-453 | a valid create whose identity is seen is counted as a duplicate and sends nothing |
| Sync.StepRecordsOnlyWithId | commit/processor.py:459-532 | the ledger changes only through a truthy id, and only at the record key |
| Sync.KeyingsAgreeOnBasicNotes | commit/processor.py:449-532 | for notes that carry their block's identity and digest, both keyings agree |
| Sync.DerivedCardAddedAgain | commit/processor.py:449-465 | as written, a synced derived card stays unseen and is added again on the next run |
| Sync.DerivedCardRecorded | commit/processor.py:449-465 | with the corrected keying, it is recorded and then skipped |
| PathFilter.Spell | commit/git_utils.py:211-224 | the placeholders and characters spell at least as many characters as there are tokens |
| PathFilter.SpellChars | commit/git_utils.py:228 | a pattern as characters spells itself |
| PathFilter.ReplaceKeepsSpelling | commit/git_utils.py:213-215 | a placeholder rewrite loses no text |
| PathFilter.CompileSpellsPattern | commit/git_utils.py:211-224 | compiling never changes the glob's text, only how it is read |
| PathFilter.CompiledHasNoStarPair | commit/git_utils.py:215-218 | after compiling, no two plain stars are adjacent |
| PathFilter.SegmentGlobMatchesNoSlash | commit/git_utils.py:218-219 | without `**` or `/`, no match contains a slash |
| PathFilter.AnyDirsMatchesNone | commit/git_utils.py:213-222 | `**/` matches zero directories |
| PathFilter.AnyDirsMatchesSome | commit/git_utils.py:213-222 | `**/` matches any run of directories |
| PathFilter.CharsMatch | commit/git_utils.py:226 | plain characters match only themselves |
| PathFilter.StarThenChars | commit/git_utils.py:218 | `*ext` matches any slash-free stem followed by `ext` |
| PathFilter.StripLeading | commit/git_utils.py:228-232 | `lstrip(chars)` drops exactly the leading characters of the set |
| PathFilter.StripDropsSetPrefix | commit/git_utils.py:228-232 | any mix of the set's characters is dropped, not just a `./` prefix |
| PathFilter.StripParent | commit/git_utils.py:232 | a leading `../` goes as a whole |
| PathFilter.StripHiddenDot | commit/git_utils.py:232 | the dot of a hidden directory goes |
| PathFilter.Keep | commit/git_utils.py:230-239 | the kept list is an ordered subsequence, with each element's count kept or zero |
| PathFilter.CompileAll | commit/git_utils.py:228 | each pattern is stripped and compiled |
| PathFilter.AnyMatches | commit/git_utils.py:234-237 | the inner loop finds a match iff some compiled pattern matches |
| PathFilter.FilterByPatterns | commit/git_utils.py:182-239 | no patterns keep every file; otherwise exactly the files matching some pattern are kept, in order |
| PathFilter.MatchesCompiled | commit/git_utils.py:231-237 | one file is kept iff it matches some pattern |
| PathFilter.CompiledMatches | commit/git_utils.py:228-237 | trying the compiled patterns decides the match |
| PathFilter.ChangedTexFiles | commit/git_utils.py:112-119 | keeps exactly the changed `.tex` files that match, as an ordered subsequence |
| PathFilter.SubsequenceTrans | commit/git_utils.py:112-119 | a subsequence of a subsequence is a subsequence |
| GlobCases.CompileTreeGlob | commit/git_utils.py:211-224 | `dir/**/*ext` compiles to the directory, the any-directories placeholder, a star and the extension |
| GlobCases.TreeGlobKeepsTopLevel | commit/git_utils.py:213-222 | a file directly in the directory is kept |
| GlobCases.TreeGlobKeepsNested | commit/git_utils.py:213-222 | a file any depth below the directory is kept |
| GlobCases.TreeGlobDropsOtherDir | commit/git_utils.py:226 | a path with another first letter is dropped |
| GlobCases.StarGlobStaysAtTop | commit/git_utils.py:218 | `*.tex` keeps a top-level file and drops one in a directory |
| GlobCases.CourseGlobSelectsCourse | commit/git_utils.py:182-239 | the course glob keeps a course chapter and drops another course's notes |
| LatexSafety.CheckSafe | commit/security.py:84-107 | the loops return true iff no flag and no command needle occurs |
| LatexSafety.FlagIsUnsafe | commit/security.py:96-99 | any flag in any case makes the text unsafe |
| LatexSafety.IntendedIsStricter | commit/security.py:102-105 | what the intended check passes, the check as written passes too |
| LatexSafety.AsWrittenPassesControlWords | commit/security.py:102-105 | as written, text with no doubled backslash and no flag is called safe |
| LatexSafety.IntendedCatchesControlWord | commit/security.py:102-105 | the intended check rejects any dangerous control word |
| LatexSafety.Argument | commit/security.py:60-72 | an argument match lies within the text and starts with the command |
| LatexSafety.DeletionShrinks | commit/security.py:55-79 | a deletion never lengthens the text, and keeps the length only when it matched nowhere |
| LatexSafety.SanitizeShrinks | commit/security.py:51-81 | the sanitizer never lengthens the text, and keeps the length only when nothing matched |
| LatexSafety.SanitizeKeepsClean | commit/security.py:51-81 | text no pass matches passes through unchanged |
| LatexSafety.SanitizeAppend | commit/security.py:51-81 | passes compose in order |
| LatexSafety.StripToFixpoint | commit/security.py:51-81 | the corrected sanitizer leaves clean text that is no longer than the input |
| LatexSafety.FixpointKeepsClean | commit/security.py:51-81 | clean text is kept by both sanitizers |
| LatexSafety.Cap | commit/security.py:125-157 | text within the limit is kept; longer text is cut and marked, at most the limit plus the marker |
| LatexSafety.GetSafeSubset | commit/security.py:110-128 | the sanitized text is kept when short, and is otherwise cut to the limit plus the 16-character marker |
| LatexSafety.ValidateForLlm | commit/security.py:131-159 | rejected iff blank or over twice the limit; unsafe text is sanitized, not cut; safe text is kept or cut with a marker |
| LatexSafetyCases.AsWrittenCallsShellCommandSafe | commit/security.py:102-105 | as written, `\write18{…}` without backslashes or flags inside is called safe |
| LatexSafetyCases.IntendedRejectsShellCommand | commit/security.py:102-105 | the intended check rejects `\write18` followed by anything |
| LatexSafetyCases.HarmlessTextKept | commit/security.py:48-81 | text with no backslash before a dangerous initial and no flag start passes unchanged |
| LatexSafetyCases.ShellCommandRemoved | commit/security.py:46-65 | a braced `\write18{…}` is deleted whole |
| LatexSafetyCases.BareShellCommandRemoved | commit/security.py:73-79 | a bare `\write18` is deleted and the plain text after it is kept |
| LatexSafetyCases.ShellCommandNotClean | commit/security.py:73-79 | a bare `\write18` is matched by a deletion |
| LatexSafetyCases.SinglePassJoins | commit/security.py:58-79 | one round on `x\def{}y` yields `x + y` when no command occurs around it |
| LatexSafetyCases.SinglePassReassemblesCommand | commit/security.py:51-81 | one round turns `\wr\def{}ite18` into `\write18` |
| LatexSafetyCases.FixpointRemovesReassembled | commit/security.py:51-81 | repeating the deletions removes the reassembled command too |

## Left out

- File I/O is not modelled: reading and writing `.tex` files, `StateManager.save` with its temporary-file rename, the state-file migration, and JSON encoding. `Ledger.Load` takes what reading and decoding the file gave as a value (no file, an I/O error, malformed JSON, bytes that are not UTF-8, a non-object top level, or a decoded dictionary), and `Ledger.LoadSaved` states the round trip. A decoded dictionary whose values have the wrong types is taken as well-typed.
- Ledger.Load: a string or list top level in which all three key names occur is returned as the state; what the later methods then raise on it is not modelled.
- SHA-1 is a parameter. Its 40-hex shape (`Hashing.ShapesDigests`) and its freedom from collisions (`Hashing.NoCollision`) are hypotheses where needed.
- Timestamps (`datetime.now()`, `create_revision_tag`) are not computed. `now` is a parameter, and the revision-tag call is recorded without its tag text.
- Orchestration and I/O around the kernels are not modelled. This covers:
  - the console and progress output and the run statistics of `process_repository`;
  - `limit_blocks`;
  - the per-run set of blocks whose markers were injected;
  - the call to `inject_guid_comment` after an online add (the injection itself is modelled in `TexInject`).
- External clients, the CLI, configuration and the package builder are not modelled: commit/anki_connect.py, commit/llm_client.py, commit/prompts.py, renforce/cli.py, commit/config.py and renforce/apkg_builder.py. These are network, YAML, genanki and interactive code.
- `generate_cards_batch` is not defined on the client. The batch reply is a parameter (`Decisions.BatchReply`), and the model does not assume every call fails.
- Git access in commit/git_utils.py is not modelled beyond the pure filter and the `.tex` suffix test.
- `strip_latex_commands` and `extract_metadata` are not modelled: no code path of `process_repository` calls them.
- Whitespace, case folding and `str.title()` follow the ASCII rules only. Python also folds and classifies non-ASCII characters (for example, under `re.IGNORECASE` KELVIN SIGN folds to `k`).
- PathFilter.Compile: the source escapes only `.+()[]^$`. It leaves `|`, `{`, `}` and `\` as regex syntax, so `a|b` compiles to `^a|b$`, which matches every path starting with `a`, and `\d` matches any digit. The model reads these characters literally. Patterns that already contain the source's placeholder words (`__DOUBLESTAR__` and the like) are not modelled either.
- TexNormalize.NormalizeTexAsWritten: idempotence is proved only for content without nested math (`TexNormalizeFixpoint.NormalizeAsWrittenIdempotent`). With nesting the output holds placeholder text (see Findings), and the model does not say what a second run makes of it.
- TexNormalize.NormalizeTex: inputs that already contain the text `__MATH_BLOCK_k__` are read as plain text. The source would confuse them with its own placeholders.
- `get_notes_for_commit` is modelled as `Ledger.GetAllNoteGuids`, which ignores its commit argument as the source does. The source's return annotation `List[str]` names a type that commit/state.py never imports. That error at import time cannot be expressed in the model.
- NoteModels.FromEnvironment: neighbour context is always empty at construction; processor.py fills it in later when the assistant is enabled, and that path is not modelled.
- The HTML layout of the `_format_*` faces is modelled in full only as far as the properties need: non-blank faces and title fronts. The exact markup is not stated as a property.
- NoteModels.TitleCase: only the length is stated, not the letter-by-letter casing.
- Hashing.ComputeGuid: the shape of the identity is stated only under the hypothesis that the hash always returns a hex digest.
- TexInject.InjectGuidCommentAsWritten: the missing-file `IOError` is not modelled, because the lines are passed in.
- Decisions.GenerateBatch: the reply's entries are taken to be dicts whose `block_index` is an integer or missing, and its top level a dict. Other JSON shapes raise in the source and would also lead to the fallback. `json.dump` of the logged reply is a parameter (`Decisions.ReplyEncoder`), so the model states which reply object is logged, not its text.
- Sync.OnlineStep: a failure is modelled at the first call an action makes. A failure of the revision-tag call after a successful field update is not modelled; in the source it aborts the run too.
- Sync.SyncOnline: the connection check and the deck creation before the loop are not modelled. A failure there ends the run before any action is handled.
- The per-block assistant path `_generate_cards_with_llm` is not modelled, since it is outside the decision kernels. Its inline validation rule is what `Decisions.ValidateCardContent` follows.

## Findings

| source | as written | input that shows it | evidently intended | confidence | as-written member | corrected member |
|---|---|---|---|---|---|---|
| renforce/tex_parser.py:172-174 | placeholders are restored in ascending order, so a span saved inside a later span stays as placeholder text | `$$\[x\]$$` normalises to `$$__MATH_BLOCK_0__$$` | every span restored, e.g. by restoring in descending order | high, not executed | TexNormalize.NestedMathAsWritten | TexNormalize.NestedMathCorrected |
| commit/processor.py:211 | `state.state` is read, but the ledger object keeps its data under another attribute, so every short marker raises and the rest of the file is dropped | a file whose first block has a 12-character marker contributes no blocks | the stored identities are read from the ledger's note map | high, not executed | Decisions.ShortMarkerDropsFile | Decisions.MarkerLeadsBackToEntry |
| renforce/tex_parser.py:334 | when a marker exists, the rewrite is made in memory and the function returns before writing the file | a file `[% anki-tex-guid: aaaaaaaa, x]` with line 2 and identity `bbbbbbbbbbbb` returns "modified" but keeps the old marker | the rewritten line is saved; processor.py:478-488 calls the function only after its own window search found no marker, so this path is reachable only from other callers | high, not executed | TexInject.RewriteNotSaved | TexInject.InjectRewritesNearest |
| renforce/tex_parser.py:329 | the template `rf'\1{short_guid}'` reads a leading digit of the short form as part of the group number or as an octal escape | a short form `9bbbbbbbbbbb` makes `re.sub` fail; `12…` yields `J…` and loses the prefix | group 1 followed by the short form, as `\g<1>` would give; processor.py:478-488 calls the function only after its own window search found no marker, so this path is reachable only from other callers | high, not executed | TexInject.DigitGuidFails | TexInject.RewriteMarkerLine |
| commit/processor.py:450, 460-465 | the online loop checks the note's identity for duplicates but records the block's identity and digest | a derived card added once is still unseen afterwards and is added again on the next run | record under the note's identity and digest | high, not executed | Sync.DerivedCardAddedAgain | Sync.DerivedCardRecorded |
| commit/security.py:8-22, 102-105 | the safety check looks for the regex source of each command, with a doubled backslash | `\write18{rm -rf /}` is called safe | the check looks for the control word itself | high, not executed | LatexSafetyCases.AsWrittenCallsShellCommandSafe | LatexSafetyCases.IntendedRejectsShellCommand |
| commit/state.py:51 | only `JSONDecodeError` and `IOError` are caught, so a state file that is not UTF-8, or whose top level is not an object, raises out of `StateManager.__init__` and ends the run | a file holding `null` raises `TypeError` at the `in` test; a file holding bytes that are not UTF-8 raises `UnicodeDecodeError` | any file that does not decode to a dictionary starts fresh, as the handler's comment says | medium, not executed | Ledger.CorruptFileEndsRun | Ledger.LoadCorrected |
| commit/security.py:51-81 | a single round of deletions can join the text around a deleted command into a command it has already passed | `\wr\def{}ite18` becomes `\write18` | delete until nothing matches | medium, not executed | LatexSafetyCases.SinglePassReassemblesCommand | LatexSafetyCases.FixpointRemovesReassembled |
