/**
 * The decision kernels of commit/processor.py: the create/update/skip rule,
 * resolution of short identity markers against the ledger, the identity of
 * an assistant-derived card, the parse of a batch reply, and the fallback
 * used when the batch call fails. The assistant call itself is a parameter:
 * its reply, or its failure.
 */
module Decisions {
  import opened Results
  import opened Text
  import opened Hashing
  import opened TexParser
  import opened TexNormalize
  import opened NoteModels
  import opened Ledger

  datatype Action = Create | Update | Skip

  /** A note, what to do with it, and the block it came from. */
  datatype NoteAction = NoteAction(note: Note, action: Action, block: Block)

  /**
   * The create/update/skip rule: create an unseen identity, update one whose
   * stored digest differs, skip the rest.
   */
  function Classify(s: State, guid: string, contentHash: string): (a: Action)
    ensures a == Create <==> guid !in s.notes
    ensures a == Update <==> guid in s.notes && s.notes[guid].contentHash != contentHash
  {
    if IsNoteSeen(s, guid) then
      (if HasNoteChanged(s, guid, contentHash) then Update else Skip)
    else Create
  }

  /**
   * Once a note is recorded with a digest, the same content is skipped and
   * any other content is an update; other identities are classified as before.
   */
  lemma ClassifyAfterRecord(s: State, guid: string, noteId: Option<int>, deck: string, h: string, now: string, h': string, other: string)
    requires other != guid
    ensures var t := RecordNote(s, guid, noteId, deck, h, now);
      && Classify(t, guid, h) == Skip
      && (h' != h ==> Classify(t, guid, h') == Update)
      && Classify(t, other, h') == Classify(s, other, h')
  {
  }

  /** The basic-mode action for one block, given how a block becomes a note. */
  function BasicAction(s: State, toNote: Block -> Note, b: Block): NoteAction {
    NoteAction(toNote(b), Classify(s, b.guid, b.contentHash), b)
  }

  /** Basic mode turns a block into a note with the course's mapper and deck. */
  function Mapping(m: Mapper, deckName: string): Block -> Note {
    b => MapBlock(m, b, deckName)
  }

  /** The three counters of a run. */
  datatype Tally = Tally(created: nat, updated: nat, skipped: nat)

  function Bump(t: Tally, a: Action): Tally {
    match a
    case Create => t.(created := t.created + 1)
    case Update => t.(updated := t.updated + 1)
    case Skip => t.(skipped := t.skipped + 1)
  }

  /** The counters as the actions determine them. */
  function TallyOf(acts: seq<NoteAction>): Tally {
    if acts == [] then Tally(0, 0, 0)
    else Bump(TallyOf(acts[..|acts| - 1]), acts[|acts| - 1].action)
  }

  /** Exactly one counter moves per action. */
  lemma {:induction false} TallyTotal(acts: seq<NoteAction>)
    ensures var t := TallyOf(acts); t.created + t.updated + t.skipped == |acts|
  {
    if acts != [] {
      TallyTotal(acts[..|acts| - 1]);
    }
  }

  /** The basic-mode actions for a list of blocks, one each, in order. */
  function BasicActions(s: State, toNote: Block -> Note, blocks: seq<Block>): (r: seq<NoteAction>)
    ensures |r| == |blocks|
    ensures forall j :: 0 <= j < |blocks| ==> r[j] == BasicAction(s, toNote, blocks[j])
  {
    if blocks == [] then []
    else BasicActions(s, toNote, blocks[..|blocks| - 1]) + [BasicAction(s, toNote, blocks[|blocks| - 1])]
  }

  /**
   * The basic-mode loop over one course's blocks: one action per block, in
   * order, each classified against the ledger as it was before the loop,
   * with exactly one counter moved per block.
   */
  method ClassifyBlocks(s: State, toNote: Block -> Note, blocks: seq<Block>) returns (acts: seq<NoteAction>, tally: Tally)
    ensures acts == BasicActions(s, toNote, blocks)
    ensures tally == TallyOf(acts)
    ensures tally.created + tally.updated + tally.skipped == |blocks|
  {
    acts := [];
    tally := Tally(0, 0, 0);
    var i := 0;
    while i < |blocks|
      invariant 0 <= i <= |blocks|
      invariant acts == BasicActions(s, toNote, blocks[..i])
      invariant tally == TallyOf(acts)
    {
      var a := BasicAction(s, toNote, blocks[i]);
      tally := Bump(tally, a.action);
      assert blocks[..i + 1][..i] == blocks[..i];
      assert (acts + [a])[..i] == acts;
      acts := acts + [a];
      i := i + 1;
    }
    assert blocks[..i] == blocks;
    TallyTotal(acts);
  }

  /**
   * With the basic mapping, each note keeps its block's identity and digest,
   * so the action is the rule applied to the note itself.
   */
  lemma BasicNotesKeepIdentity(s: State, m: Mapper, deckName: string, blocks: seq<Block>, i: nat)
    requires i < |blocks|
    ensures var a := BasicActions(s, Mapping(m, deckName), blocks)[i];
      && a.note.guid == blocks[i].guid && a.note.contentHash == blocks[i].contentHash
      && a.action == Classify(s, a.note.guid, a.note.contentHash)
      && a.note.deckName == deckName
  {
  }

  // ---------------------------------------------------------------------
  // Short identity markers

  /** An extracted marker shorter than a full 40-character identity. */
  predicate IsShortMarker(g: Option<string>) {
    Truthy(g) && |g.value| < 40
  }

  /**
   * Resolution as written (commit/processor.py:207-211): the stored
   * identities are read through an attribute the ledger object does not
   * have, so every short marker raises, and the error abandons the rest of
   * the file.
   */
  function ResolveShortGuidAsWritten(e: Environment, b: Block): (r: Result<Block>)
    ensures r.Err? <==> IsShortMarker(e.guid)
    ensures r.Ok? ==> r.value == b
  {
    if IsShortMarker(e.guid) then Err("'StateManager' object has no attribute 'state'") else Ok(b)
  }

  /**
   * Resolution as intended: a short marker that prefixes exactly one stored
   * identity is replaced by it; otherwise the block keeps what it has (the
   * short marker itself, as `from_environment` copied it).
   */
  function ResolveShortGuid(stored: seq<string>, e: Environment, b: Block): (r: Block)
    ensures r.(guid := b.guid) == b
    ensures forall i :: IsShortMarker(e.guid) && UniqueMatchAt(e.guid.value, stored, i) ==> r.guid == stored[i]
    ensures !(IsShortMarker(e.guid) && exists i :: UniqueMatchAt(e.guid.value, stored, i)) ==> r == b
  {
    if IsShortMarker(e.guid) then
      match MatchShortGuidToFull(e.guid.value, stored)
      case Some(full) => b.(guid := full)
      case None => b
    else b
  }

  /**
   * A marker written as the 12-character short form of a stored identity
   * leads a block back to that identity, when no other stored identity
   * shares the prefix; the block is then classified against its entry.
   */
  lemma MarkerLeadsBackToEntry(hash: Hasher, s: State, stored: seq<string>, i: nat, e: Environment, path: string)
    requires i < |stored| && stored[i] in s.notes && |stored[i]| >= 12
    requires e.guid == Some(ShortGuid(stored[i]))
    requires forall j :: 0 <= j < |stored| && j != i ==> !StartsWith(stored[j], ShortGuid(stored[i]))
    ensures var b := ResolveShortGuid(stored, e, FromEnvironmentCorrected(hash, e, path));
      && b.guid == stored[i]
      && Classify(s, b.guid, b.contentHash) != Create
  {
    assert UniqueMatchAt(ShortGuid(stored[i]), stored, i);
  }

  /** The blocks a file contributes: those before the first resolution error, and whether one occurred. */
  function BlocksBeforeError(rs: seq<Result<Block>>): (r: (seq<Block>, bool))
    ensures |r.0| <= |rs|
    ensures forall k :: 0 <= k < |r.0| ==> rs[k] == Ok(r.0[k])
    ensures r.1 <==> exists k :: 0 <= k < |rs| && rs[k].Err?
    ensures !r.1 ==> |r.0| == |rs|
  {
    if rs == [] then ([], false)
    else match rs[0]
      case Err(_) => ([], true)
      case Ok(b) =>
        var rest := BlocksBeforeError(rs[1..]);
        assert forall k :: 0 < k < |rs| ==> rs[1..][k - 1] == rs[k];
        ([b] + rest.0, rest.1)
  }

  /** The blocks of one file as written: each environment resolved in turn until one raises. */
  function FileBlocksAsWritten(hash: Hasher, envs: seq<Environment>, path: string): (r: (seq<Block>, bool))
    ensures |r.0| <= |envs|
  {
    BlocksBeforeError(seq(|envs|, k requires 0 <= k < |envs| =>
      ResolveShortGuidAsWritten(envs[k], FromEnvironment(hash, envs[k], path))))
  }

  /** The blocks of one file as intended: every environment, each resolved against the stored identities. */
  function FileBlocks(hash: Hasher, stored: seq<string>, envs: seq<Environment>, path: string): (r: seq<Block>)
    ensures |r| == |envs|
    ensures forall k :: 0 <= k < |envs| ==> r[k].lineNumber == envs[k].startLine && r[k].env == envs[k].env
  {
    seq(|envs|, k requires 0 <= k < |envs| => ResolveShortGuid(stored, envs[k], FromEnvironmentCorrected(hash, envs[k], path)))
  }

  /**
   * As written, a file whose first environment carries a short marker
   * contributes no blocks at all and records an error, while the intended
   * resolution keeps every environment.
   */
  lemma ShortMarkerDropsFile(hash: Hasher, stored: seq<string>, envs: seq<Environment>, path: string)
    requires |envs| > 0 && IsShortMarker(envs[0].guid)
    ensures FileBlocksAsWritten(hash, envs, path) == ([], true)
    ensures |FileBlocks(hash, stored, envs, path)| == |envs|
  {
  }

  /** Without short markers and without nested math the two agree, block for block. */
  lemma NoShortMarkersAgree(hash: Hasher, stored: seq<string>, envs: seq<Environment>, path: string)
    requires forall k :: 0 <= k < |envs| ==> !IsShortMarker(envs[k].guid)
    requires forall k :: 0 <= k < |envs| ==> NoNestedMath(envs[k].body)
    ensures FileBlocksAsWritten(hash, envs, path) == (FileBlocks(hash, stored, envs, path), false)
  {
    var rs := seq(|envs|, k requires 0 <= k < |envs| =>
      ResolveShortGuidAsWritten(envs[k], FromEnvironment(hash, envs[k], path)));
    var r := BlocksBeforeError(rs);
    forall k | 0 <= k < |envs|
      ensures FromEnvironmentCorrected(hash, envs[k], path) == FromEnvironment(hash, envs[k], path)
    {
      CorrectedAgreesWithoutNesting(hash, envs[k], path);
    }
    assert !r.1;
    assert r.0 == FileBlocks(hash, stored, envs, path);
  }

  // ---------------------------------------------------------------------
  // Cards derived by the assistant

  /** A card as the reply gives it; a missing key is `None`. */
  datatype Card = Card(model: Option<string>, front: Option<string>, back: Option<string>, tags: Option<seq<string>>)

  function CardModel(c: Card): string { c.model.GetOr("Basic") }
  function CardFront(c: Card): string { Strip(c.front.GetOr("")) }
  function CardBack(c: Card): string { Strip(c.back.GetOr("")) }

  datatype CardProblem = EmptyFront | EmptyBack

  /**
   * `validate_card_content`, taken from the inline rule it replaced: the
   * front must be non-empty, and a `Basic` card needs a non-empty back.
   */
  function ValidateCardContent(front: string, back: string, modelName: string): (r: Option<CardProblem>)
    ensures r.None? <==> front != "" && (modelName == "Basic" ==> back != "")
    ensures r == Some(EmptyFront) <==> front == ""
  {
    if front == "" then Some(EmptyFront)
    else if modelName == "Basic" && back == "" then Some(EmptyBack)
    else None
  }

  /** `file_path.split('/')[0]`: the path up to its first `/`. */
  function FirstComponent(path: string): (r: string)
    ensures StartsWith(path, r) && '/' !in r
    ensures |r| < |path| ==> path[|r|] == '/'
  {
    if path == [] || path[0] == '/' then []
    else [path[0]] + FirstComponent(path[1..])
  }

  /** The card's tags with `auto` and `from-tex` added when missing, then the course and top-directory tags. */
  function WithStandardTags(tags: seq<string>, course: string, path: string): (r: seq<string>)
    ensures |r| >= |tags| + 2 && r[..|tags|] == tags
    ensures "auto" in r && "from-tex" in r
    ensures r[|r| - 2] == "course:" + course && r[|r| - 1] == "file:" + FirstComponent(path)
    ensures |r| == |tags| + 2 + (if "auto" in tags then 0 else 1) + (if "from-tex" in tags then 0 else 1)
  {
    var t1 := if "auto" in tags then tags else tags + ["auto"];
    var t2 := if "from-tex" in t1 then t1 else t1 + ["from-tex"];
    assert "from-tex" in t1 <==> "from-tex" in tags;
    t2 + ["course:" + course, "file:" + FirstComponent(path)]
  }

  /** The text a derived card's identity and digest are taken from. */
  function CardText(front: string, back: string): string {
    front + "|" + back
  }

  /** The kind under which derived cards are identified. */
  function DerivedKind(env: string): string {
    env + "::llm"
  }

  /**
   * `_create_anki_note_from_card`: a valid card becomes a note whose
   * identity is taken from the block's kind (with `::llm`) and file and the
   * card's own text; its position in the reply plays no part.
   */
  function CreateNoteFromCard(hash: Hasher, c: Card, b: Block, course: string, deckName: string): (r: Option<Note>)
    ensures r.Some? <==> ValidateCardContent(CardFront(c), CardBack(c), CardModel(c)).None?
    ensures r.Some? ==>
      && r.value.guid == ComputeGuid(hash, DerivedKind(b.env), CardText(CardFront(c), CardBack(c)), b.filePath)
      && r.value.contentHash == ComputeContentHash(hash, CardText(CardFront(c), CardBack(c)))
      && r.value.fields == map["Front" := CardFront(c), "Back" := CardBack(c)]
      && r.value.modelName == CardModel(c) && r.value.deckName == deckName
      && r.value.tags == WithStandardTags(c.tags.GetOr([]), course, b.filePath)
  {
    var front := CardFront(c);
    var back := CardBack(c);
    if ValidateCardContent(front, back, CardModel(c)).Some? then None
    else
      var text := CardText(front, back);
      Some(Note(ComputeGuid(hash, DerivedKind(b.env), text, b.filePath), deckName, CardModel(c),
                map["Front" := front, "Back" := back], WithStandardTags(c.tags.GetOr([]), course, b.filePath),
                ComputeContentHash(hash, text)))
  }

  /**
   * A derived identity depends only on the block's kind and file and the
   * card's stripped text: two blocks of one kind in one file that yield the
   * same card yield the same identity, whatever their bodies, tags, decks.
   */
  lemma DerivedIdentityFromContent(hash: Hasher, c1: Card, c2: Card, b1: Block, b2: Block, course1: string, course2: string, deck1: string, deck2: string)
    requires b1.env == b2.env && b1.filePath == b2.filePath
    requires CardFront(c1) == CardFront(c2) && CardBack(c1) == CardBack(c2) && CardModel(c1) == CardModel(c2)
    ensures var n1 := CreateNoteFromCard(hash, c1, b1, course1, deck1);
            var n2 := CreateNoteFromCard(hash, c2, b2, course2, deck2);
      && n1.Some? == n2.Some?
      && (n1.Some? ==> n1.value.guid == n2.value.guid && n1.value.contentHash == n2.value.contentHash)
  {
  }

  /**
   * A derived identity never equals the identity an unmarked block gets,
   * given no collision and no `|` in the kind: the two hashed texts differ
   * in where their first `|` falls.
   */
  lemma DerivedDiffersFromBlock(hash: Hasher, env: string, body: string, text: string, path: string)
    requires '|' !in env
    requires NoCollision(hash, GuidPreimage(DerivedKind(env), text, path), GuidPreimage(env, body, path))
    ensures ComputeGuid(hash, DerivedKind(env), text, path) != ComputeGuid(hash, env, body, path)
  {
    var p1 := GuidPreimage(DerivedKind(env), text, path);
    var p2 := GuidPreimage(env, body, path);
    assert '|' !in DerivedKind(env) by {
      assert forall k :: 0 <= k < |DerivedKind(env)| ==> DerivedKind(env)[k] == (env + "::llm")[k];
    }
    assert p1 == DerivedKind(env) + "|" + (text + "|" + path);
    assert p2 == env + "|" + (body + "|" + path);
    FirstBarAfter(DerivedKind(env), text + "|" + path);
    FirstBarAfter(env, body + "|" + path);
  }

  // ---------------------------------------------------------------------
  // The batch reply and the fallback

  /** A block offered to the assistant, with its course, priority and deck. */
  datatype Meta = Meta(block: Block, course: string, priority: int, deck: string)

  /** One `selected_blocks` entry. */
  datatype Selection = Selection(blockIndex: Option<int>, cards: seq<Card>)

  /**
   * The reply's `summary`: missing or a dict (both read without error), or
   * another JSON value, on which `.get` raises when it is truthy.
   */
  datatype Summary = DictSummary | OtherSummary(truthy: bool)

  /**
   * The assistant call: a reply (its selections, the indices of its
   * `skipped_blocks` and its summary) or a failure of any kind.
   */
  datatype BatchReply =
    | Replied(selected: seq<Selection>, skipped: seq<Option<int>>, summary: Summary)
    | CallFailed

  /** Where a selection's index leads: ignored, a block, or an indexing error. */
  datatype Lookup = Ignored | At(k: nat) | Raises

  /**
   * A missing index or one at least the batch size is ignored; a negative
   * index counts from the end as Python lists do, and one below minus the
   * size raises.
   */
  function LookupIndex(n: nat, idx: Option<int>): (r: Lookup)
    ensures r.Ignored? <==> idx.None? || idx.value >= n
    ensures r.Raises? <==> idx.Some? && idx.value < -(n as int)
    ensures r.At? ==> r.k < n && r.k as int == (if idx.value >= 0 then idx.value else n + idx.value)
  {
    match idx
    case None => Ignored
    case Some(i) =>
      if i >= n then Ignored
      else if i >= 0 then At(i)
      else if i >= -(n as int) then At(n + i)
      else Raises
  }

  /** The actions for one selected block's cards: valid cards only, in order, each classified on its own identity. */
  function CardActions(hash: Hasher, s: State, meta: Meta, cards: seq<Card>): (r: seq<NoteAction>)
    ensures |r| <= |cards|
    ensures forall a :: a in r ==> a.block == meta.block && a.note.deckName == meta.deck
    ensures forall a :: a in r ==> a.action == Classify(s, a.note.guid, a.note.contentHash)
    ensures forall a :: a in r ==> exists c :: c in cards && CreateNoteFromCard(hash, c, meta.block, meta.course, meta.deck) == Some(a.note)
  {
    if cards == [] then []
    else
      var here := match CreateNoteFromCard(hash, cards[0], meta.block, meta.course, meta.deck)
        case Some(n) => [NoteAction(n, Classify(s, n.guid, n.contentHash), meta.block)]
        case None => [];
      here + CardActions(hash, s, meta, cards[1..])
  }

  /** The number of cards in a list that pass validation. */
  function ValidCount(cards: seq<Card>): nat {
    if cards == [] then 0
    else
      var here := if ValidateCardContent(CardFront(cards[0]), CardBack(cards[0]), CardModel(cards[0])).None? then 1 else 0;
      here + ValidCount(cards[1..])
  }

  /** Every valid card yields exactly one action. */
  lemma {:induction false} CardActionsCount(hash: Hasher, s: State, meta: Meta, cards: seq<Card>)
    ensures |CardActions(hash, s, meta, cards)| == ValidCount(cards)
  {
    if cards != [] {
      CardActionsCount(hash, s, meta, cards[1..]);
    }
  }

  /** The parse of `selected_blocks`, in order; `None` when an index raises. */
  function ParseSelections(hash: Hasher, s: State, metas: seq<Meta>, sel: seq<Selection>): (r: Option<seq<NoteAction>>)
    ensures r.None? <==> exists j :: 0 <= j < |sel| && LookupIndex(|metas|, sel[j].blockIndex).Raises?
    ensures r.Some? ==> forall a :: a in r.value ==> a.action == Classify(s, a.note.guid, a.note.contentHash)
    ensures r.Some? ==> forall a :: a in r.value ==> exists k :: 0 <= k < |metas| && a.block == metas[k].block
  {
    if sel == [] then Some([])
    else
      var rest := ParseSelections(hash, s, metas, sel[1..]);
      assert forall j :: 1 <= j < |sel| ==> sel[1..][j - 1] == sel[j];
      match LookupIndex(|metas|, sel[0].blockIndex)
      case Raises => None
      case Ignored => rest
      case At(k) =>
        if rest.None? then None
        else Some(CardActions(hash, s, metas[k], sel[0].cards) + rest.value)
  }

  /** Selections whose index is missing or too large contribute nothing. */
  lemma IgnoredSelection(hash: Hasher, s: State, metas: seq<Meta>, x: Selection, sel: seq<Selection>)
    requires x.blockIndex.None? || x.blockIndex.value >= |metas|
    ensures ParseSelections(hash, s, metas, [x] + sel) == ParseSelections(hash, s, metas, sel)
  {
    assert ([x] + sel)[1..] == sel;
  }

  /** Index -1 selects the last block offered. */
  lemma LastBlockByNegativeIndex(hash: Hasher, s: State, metas: seq<Meta>, cards: seq<Card>)
    requires |metas| > 0
    ensures ParseSelections(hash, s, metas, [Selection(Some(-1), cards)])
         == Some(CardActions(hash, s, metas[|metas| - 1], cards))
  {
    var sel := [Selection(Some(-1), cards)];
    assert sel[1..] == [];
    assert LookupIndex(|metas|, Some(-1)) == At(|metas| - 1);
    var acts := CardActions(hash, s, metas[|metas| - 1], cards);
    assert acts + [] == acts;
  }

  /** Whether logging `skipped_blocks` raises: some index is below minus the batch size. */
  function SkippedRaises(n: nat, skipped: seq<Option<int>>): (b: bool)
    ensures b <==> exists j :: 0 <= j < |skipped| && skipped[j].Some? && skipped[j].value < -(n as int)
  {
    if skipped == [] then false
    else
      assert forall j :: 1 <= j < |skipped| ==> skipped[1..][j - 1] == skipped[j];
      LookupIndex(n, skipped[0]).Raises? || SkippedRaises(n, skipped[1..])
  }

  /**
   * The whole of the reply's handling inside the `try`: the selections, then
   * the skipped blocks, then the summary; `None` when any of them raises.
   */
  function ParseReply(hash: Hasher, s: State, metas: seq<Meta>, sel: seq<Selection>,
                      skipped: seq<Option<int>>, summary: Summary): (r: Option<seq<NoteAction>>)
    ensures r.None? <==>
      || (exists j :: 0 <= j < |sel| && LookupIndex(|metas|, sel[j].blockIndex).Raises?)
      || (exists j :: 0 <= j < |skipped| && skipped[j].Some? && skipped[j].value < -(|metas| as int))
      || (summary.OtherSummary? && summary.truthy)
    ensures r.Some? ==> r == ParseSelections(hash, s, metas, sel)
  {
    var acts := ParseSelections(hash, s, metas, sel);
    if acts.None? || SkippedRaises(|metas|, skipped) then None
    else match summary
      case OtherSummary(true) => None
      case _ => acts
  }

  /** The fallback action for one block: create when its identity is unseen, skip otherwise. */
  function FallbackAction(s: State, sha: string, meta: Meta): NoteAction {
    var note := MapBlock(Mapper("", sha), meta.block, meta.deck);
    NoteAction(note, if !IsNoteSeen(s, note.guid) then Create else Skip, meta.block)
  }

  /** The fallback: one basic note per offered block, in order. */
  function Fallback(s: State, sha: string, metas: seq<Meta>): (r: seq<NoteAction>)
    ensures |r| == |metas|
    ensures forall i :: 0 <= i < |metas| ==> r[i] == FallbackAction(s, sha, metas[i])
  {
    seq(|metas|, i requires 0 <= i < |metas| => FallbackAction(s, sha, metas[i]))
  }

  /**
   * The fallback is the create/update/skip rule with update turned into
   * skip: it never updates, even when the stored digest differs.
   */
  lemma FallbackNeverUpdates(s: State, sha: string, metas: seq<Meta>, i: nat)
    requires i < |metas|
    ensures var a := Fallback(s, sha, metas)[i];
            var c := Classify(s, metas[i].block.guid, metas[i].block.contentHash);
      && a.block == metas[i].block
      && a.action != Update
      && (a.action == Create <==> c == Create)
      && (c == Update ==> a.action == Skip)
  {
  }

  /** A function standing in for `json.dump` of the reply object, as it is when the ledger is saved. */
  type ReplyEncoder = BatchReply -> string

  /**
   * A card as the reply object holds it once `_create_anki_note_from_card`
   * has seen it: for a valid card that carries `tags`, that very list has had
   * the standard tags appended in place. A card without `tags` gets a fresh
   * list, and an invalid card returns before any append.
   */
  function TagCard(c: Card, meta: Meta): (r: Card)
    ensures r.(tags := c.tags) == c
    ensures r != c <==> ValidateCardContent(CardFront(c), CardBack(c), CardModel(c)).None? && c.tags.Some?
    ensures r != c ==> r.tags == Some(WithStandardTags(c.tags.value, meta.course, meta.block.filePath))
  {
    if ValidateCardContent(CardFront(c), CardBack(c), CardModel(c)).None? && c.tags.Some? then
      var t := WithStandardTags(c.tags.value, meta.course, meta.block.filePath);
      assert |t| > |c.tags.value|;
      c.(tags := Some(t))
    else c
  }

  /** A selection after its cards were turned into notes: only one that leads to a block has its cards seen. */
  function TagSelection(metas: seq<Meta>, x: Selection): (r: Selection)
    ensures r.blockIndex == x.blockIndex && |r.cards| == |x.cards|
    ensures !LookupIndex(|metas|, x.blockIndex).At? ==> r == x
    ensures LookupIndex(|metas|, x.blockIndex).At? ==>
      forall i :: 0 <= i < |x.cards| ==> r.cards[i] == TagCard(x.cards[i], metas[LookupIndex(|metas|, x.blockIndex).k])
  {
    match LookupIndex(|metas|, x.blockIndex)
    case At(k) => x.(cards := seq(|x.cards|, i requires 0 <= i < |x.cards| => TagCard(x.cards[i], metas[k])))
    case _ => x
  }

  /** Whether the loop over `selected_blocks` has raised by the time it reaches selection `j`. */
  predicate RaisedBy(n: nat, sel: seq<Selection>, j: nat)
    requires j < |sel|
  {
    exists i :: 0 <= i <= j && LookupIndex(n, sel[i].blockIndex).Raises?
  }

  /**
   * The selections after the loop over `selected_blocks`: each selection up
   * to the first one whose index raises has had its cards seen, and the
   * rest are as received.
   */
  function TagSelections(metas: seq<Meta>, sel: seq<Selection>): (r: seq<Selection>)
    ensures |r| == |sel|
    ensures forall j :: 0 <= j < |sel| ==>
      r[j] == if RaisedBy(|metas|, sel, j) then sel[j] else TagSelection(metas, sel[j])
  {
    if sel == [] then []
    else if LookupIndex(|metas|, sel[0].blockIndex).Raises? then
      assert forall j :: 0 <= j < |sel| ==> RaisedBy(|metas|, sel, j);
      sel
    else
      var rest := TagSelections(metas, sel[1..]);
      forall j | 1 <= j < |sel|
        ensures RaisedBy(|metas|, sel, j) <==> RaisedBy(|metas|, sel[1..], j - 1)
      {
        if RaisedBy(|metas|, sel, j) {
          var i :| 0 <= i <= j && LookupIndex(|metas|, sel[i].blockIndex).Raises?;
          assert i != 0 && sel[1..][i - 1] == sel[i];
        }
        if RaisedBy(|metas|, sel[1..], j - 1) {
          var i :| 0 <= i <= j - 1 && LookupIndex(|metas|, sel[1..][i].blockIndex).Raises?;
          assert sel[1..][i] == sel[i + 1];
        }
      }
      assert !RaisedBy(|metas|, sel, 0);
      [TagSelection(metas, sel[0])] + rest
  }

  /**
   * The reply object the audit map holds: `record_llm_generation` stores the
   * response itself, not a copy, so the tags later appended to its cards are
   * part of what the ledger saves.
   */
  function LoggedReply(metas: seq<Meta>, reply: BatchReply): (r: BatchReply)
    requires reply.Replied?
    ensures r.Replied? && r.skipped == reply.skipped && r.summary == reply.summary
    ensures r.selected == TagSelections(metas, reply.selected)
  {
    reply.(selected := TagSelections(metas, reply.selected))
  }

  /**
   * A valid card with a `tags` list, in a selection reached before any
   * index raised, is logged with exactly the tags of the note made from it,
   * so the audit record differs from the reply as received.
   */
  lemma LoggedCardHoldsNoteTags(hash: Hasher, metas: seq<Meta>, reply: BatchReply, j: nat, i: nat)
    requires reply.Replied? && j < |reply.selected| && !RaisedBy(|metas|, reply.selected, j)
    requires LookupIndex(|metas|, reply.selected[j].blockIndex).At?
    requires i < |reply.selected[j].cards| && reply.selected[j].cards[i].tags.Some?
    requires var meta := metas[LookupIndex(|metas|, reply.selected[j].blockIndex).k];
      CreateNoteFromCard(hash, reply.selected[j].cards[i], meta.block, meta.course, meta.deck).Some?
    ensures var meta := metas[LookupIndex(|metas|, reply.selected[j].blockIndex).k];
      var note := CreateNoteFromCard(hash, reply.selected[j].cards[i], meta.block, meta.course, meta.deck).value;
      LoggedReply(metas, reply).selected[j].cards[i].tags == Some(note.tags)
    ensures LoggedReply(metas, reply) != reply
  {
    var logged := LoggedReply(metas, reply);
    assert logged.selected[j].cards[i] != reply.selected[j].cards[i];
  }

  /** A reply none of whose cards carries `tags` is logged as received. */
  lemma UntaggedReplyLoggedAsIs(metas: seq<Meta>, reply: BatchReply)
    requires reply.Replied?
    requires forall j, i :: 0 <= j < |reply.selected| && 0 <= i < |reply.selected[j].cards| ==> reply.selected[j].cards[i].tags.None?
    ensures LoggedReply(metas, reply) == reply
  {
    var sel := reply.selected;
    var r := TagSelections(metas, sel);
    forall j | 0 <= j < |sel| ensures r[j] == sel[j] {
      if !RaisedBy(|metas|, sel, j) && LookupIndex(|metas|, sel[j].blockIndex).At? {
        var x := TagSelection(metas, sel[j]);
        assert forall i :: 0 <= i < |x.cards| ==> x.cards[i] == sel[j].cards[i];
      }
    }
  }

  /** The audit key of a batch run. */
  function BatchKey(sha: string): string {
    "batch_" + sha
  }

  /**
   * `_generate_cards_batch_with_llm`: nothing for no blocks; on a failed
   * call the fallback; on a reply, the reply is logged to the audit map and
   * parsed, falling back when the parse raises.
   */
  function GenerateBatch(hash: Hasher, s: State, metas: seq<Meta>, reply: BatchReply, enc: ReplyEncoder, sha: string,
                         model: string, provider: string, now: string): (r: (seq<NoteAction>, State))
    ensures metas == [] ==> r == ([], s)
    ensures metas != [] && reply.CallFailed? ==> r == (Fallback(s, sha, metas), s)
    ensures metas != [] && reply.Replied? ==>
      r.1 == RecordGeneration(s, BatchKey(sha), enc(LoggedReply(metas, reply)), model, provider, now)
    ensures metas != [] && reply.Replied? ==>
      var parsed := ParseSelections(hash, r.1, metas, reply.selected);
      var fails := parsed.None? || SkippedRaises(|metas|, reply.skipped) || reply.summary == OtherSummary(true);
      && (fails ==> r.0 == Fallback(r.1, sha, metas))
      && (!fails ==> r.0 == parsed.value)
    ensures r.1.notes == s.notes && r.1.lastSha == s.lastSha
  {
    if metas == [] then ([], s)
    else match reply
      case CallFailed => (Fallback(s, sha, metas), s)
      case Replied(sel, skipped, summary) =>
        var t := RecordGeneration(s, BatchKey(sha), enc(LoggedReply(metas, reply)), model, provider, now);
        match ParseReply(hash, t, metas, sel, skipped, summary)
        case Some(acts) => (acts, t)
        case None => (Fallback(t, sha, metas), t)
  }

  /**
   * A `skipped_blocks` index below minus the batch size raises while the
   * skipped blocks are logged, and the valid selections already parsed are
   * thrown away for the fallback.
   */
  lemma SkippedIndexFallsBack(hash: Hasher, s: State, metas: seq<Meta>, sel: seq<Selection>, skipped: seq<Option<int>>,
                              summary: Summary, enc: ReplyEncoder, sha: string, model: string, provider: string, now: string, j: nat)
    requires metas != []
    requires j < |skipped| && skipped[j].Some? && skipped[j].value < -(|metas| as int)
    ensures var r := GenerateBatch(hash, s, metas, Replied(sel, skipped, summary), enc, sha, model, provider, now);
      r.0 == Fallback(r.1, sha, metas)
  {
  }

  /** A truthy summary that is not a dict makes the whole reply fall back. */
  lemma NonDictSummaryFallsBack(hash: Hasher, s: State, metas: seq<Meta>, sel: seq<Selection>,
                                skipped: seq<Option<int>>, enc: ReplyEncoder, sha: string, model: string, provider: string, now: string)
    requires metas != []
    ensures var r := GenerateBatch(hash, s, metas, Replied(sel, skipped, OtherSummary(true)), enc, sha, model, provider, now);
      r.0 == Fallback(r.1, sha, metas)
  {
  }

  /**
   * A reply whose skipped indices and summary read cleanly returns the
   * parsed selections; an empty `skipped_blocks` list and an empty (falsy)
   * summary of another type are both clean.
   */
  lemma CleanReplyKeepsSelections(hash: Hasher, s: State, metas: seq<Meta>, sel: seq<Selection>, summary: Summary,
                                  enc: ReplyEncoder, sha: string, model: string, provider: string, now: string)
    requires metas != []
    requires summary == DictSummary || summary == OtherSummary(false)
    requires var logged := enc(LoggedReply(metas, Replied(sel, [], summary)));
      ParseSelections(hash, RecordGeneration(s, BatchKey(sha), logged, model, provider, now), metas, sel).Some?
    ensures var t := RecordGeneration(s, BatchKey(sha), enc(LoggedReply(metas, Replied(sel, [], summary))), model, provider, now);
      GenerateBatch(hash, s, metas, Replied(sel, [], summary), enc, sha, model, provider, now)
        == (ParseSelections(hash, t, metas, sel).value, t)
  {
  }

  /**
   * Whatever the reply, every action is either a fallback for one offered
   * block or a classified derived card of an offered block.
   */
  lemma BatchActionsFromOfferedBlocks(hash: Hasher, s: State, metas: seq<Meta>, reply: BatchReply, enc: ReplyEncoder,
                                      sha: string, model: string, provider: string, now: string)
    ensures var r := GenerateBatch(hash, s, metas, reply, enc, sha, model, provider, now);
      forall a :: a in r.0 ==> exists k :: 0 <= k < |metas| && a.block == metas[k].block
  {
    if metas != [] {
      match reply
      case CallFailed =>
        FallbackFromOffered(s, sha, metas);
      case Replied(sel, skipped, summary) =>
        var t := RecordGeneration(s, BatchKey(sha), enc(LoggedReply(metas, reply)), model, provider, now);
        if ParseReply(hash, t, metas, sel, skipped, summary).None? {
          FallbackFromOffered(t, sha, metas);
        }
    }
  }

  lemma FallbackFromOffered(s: State, sha: string, metas: seq<Meta>)
    ensures forall a :: a in Fallback(s, sha, metas) ==> exists k :: 0 <= k < |metas| && a.block == metas[k].block
  {
    var r := Fallback(s, sha, metas);
    forall a | a in r ensures exists k :: 0 <= k < |metas| && a.block == metas[k].block {
      var i :| 0 <= i < |r| && r[i] == a;
      FallbackNeverUpdates(s, sha, metas, i);
    }
  }
}
