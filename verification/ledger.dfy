/**
 * The sync ledger (commit/state.py): a map from note identity to what was
 * last synced, the last processed commit, and an audit map of assistant
 * generations. Reading and writing the JSON file are not modelled; a load
 * is given what the file held, and the wall clock is a parameter.
 */
module Ledger {
  import opened Results
  import Text

  /** One `note_hashes` entry. */
  datatype Entry = Entry(
    noteId: Option<int>,
    deck: string,
    contentHash: string,
    createdAt: string,
    updatedAt: string)

  /** One `llm_generations` entry; the response is kept as its serialized text. */
  datatype Generation = Generation(response: string, timestamp: string, model: string, provider: string)

  /** The state dictionary. `version` is absent from a loaded file that lacks it. */
  datatype State = State(
    lastSha: Option<string>,
    notes: map<string, Entry>,
    generations: map<string, Generation>,
    version: Option<string>)

  /** `_default_state`. */
  function DefaultState(): (s: State)
    ensures s.lastSha.None? && s.notes == map[] && s.generations == map[]
    ensures s.version == Some("0.2.0")
  {
    State(None, map[], map[], Some("0.2.0"))
  }

  /**
   * The top level of a decoded file that is not a JSON object. Python's `in`
   * finds a substring of a string and an element of a list, so a string keeps
   * its text and an array keeps the strings among its elements.
   */
  datatype NonObject =
    | JNull
    | JBool(b: bool)
    | JNumber
    | JString(text: string)
    | JArray(strings: set<string>)

  /**
   * What a load finds: no file, a file whose reading raises `IOError`, text
   * that is not JSON, bytes that are not UTF-8, a JSON value that is not an
   * object, or a decoded dictionary in which each key may be missing (`None`).
   */
  datatype Stored =
    | NoFile
    | Unreadable
    | Malformed
    | NotUtf8
    | NonDict(top: NonObject)
    | Decoded(lastSha: Option<Option<string>>,
              notes: Option<map<string, Entry>>,
              generations: Option<map<string, Generation>>,
              version: Option<string>)

  /**
   * How `_load` ends: with a state dictionary, with an exception that leaves
   * `StateManager.__init__`, or with a non-dictionary value returned as the
   * state because all three key names happen to occur in it.
   */
  datatype LoadOutcome =
    | Loaded(state: State)
    | Raised(error: string)
    | KeptValue(top: NonObject)

  /** Whether `key in top` can be evaluated at all: `null`, booleans and numbers raise `TypeError`. */
  predicate Iterable(top: NonObject) {
    top.JString? || top.JArray?
  }

  /** `key in top` for an iterable top level. */
  predicate Occurs(top: NonObject, key: string)
    requires Iterable(top)
  {
    match top
    case JString(t) => Text.Contains(t, key)
    case JArray(ss) => key in ss
  }

  /** All three keys `_load` fills in when they are missing occur in the top level. */
  predicate HasRequiredKeys(top: NonObject)
    requires Iterable(top)
  {
    Occurs(top, "note_hashes") && Occurs(top, "last_processed_sha") && Occurs(top, "llm_generations")
  }

  /**
   * `_load` (commit/state.py:35-54): a missing file, an `IOError` or a
   * `JSONDecodeError` gives the default state, and missing keys get their
   * defaults. A `UnicodeDecodeError` is not caught; nor is the `TypeError`
   * that a non-object top level raises at the `in` test or at the item
   * assignment that follows a failed test.
   */
  function Load(stored: Stored): (r: LoadOutcome)
    ensures r.Loaded? <==> !(stored.NotUtf8? || stored.NonDict?)
    ensures (stored.NoFile? || stored.Unreadable? || stored.Malformed?) ==> r == Loaded(DefaultState())
    ensures stored.Decoded? ==>
      && r.Loaded?
      && r.state.lastSha == stored.lastSha.GetOr(None)
      && r.state.notes == stored.notes.GetOr(map[])
      && r.state.generations == stored.generations.GetOr(map[])
      && r.state.version == stored.version
    ensures stored.NotUtf8? ==> r == Raised("UnicodeDecodeError")
    ensures stored.NonDict? ==>
      (r.KeptValue? <==> Iterable(stored.top) && HasRequiredKeys(stored.top))
    ensures stored.NonDict? && !r.KeptValue? ==> r == Raised("TypeError")
    ensures r.KeptValue? ==> stored == NonDict(r.top)
  {
    match stored
    case NoFile => Loaded(DefaultState())
    case Unreadable => Loaded(DefaultState())
    case Malformed => Loaded(DefaultState())
    case NotUtf8 => Raised("UnicodeDecodeError")
    case NonDict(top) =>
      if !Iterable(top) then Raised("TypeError")
      else if !Occurs(top, "note_hashes") then Raised("TypeError")
      else if !Occurs(top, "last_processed_sha") then Raised("TypeError")
      else if !Occurs(top, "llm_generations") then Raised("TypeError")
      else KeptValue(top)
    case Decoded(sha, notes, gens, version) =>
      Loaded(State(sha.GetOr(None), notes.GetOr(map[]), gens.GetOr(map[]), version))
  }

  /**
   * The load the handler's comment ("if file is corrupted, start fresh")
   * intends: every file that does not decode to a dictionary gives the
   * default state, so loading never fails.
   */
  function LoadCorrected(stored: Stored): (s: State)
    ensures Load(stored).Loaded? ==> s == Load(stored).state
    ensures !Load(stored).Loaded? ==> s == DefaultState()
  {
    match stored
    case Decoded(sha, notes, gens, version) =>
      State(sha.GetOr(None), notes.GetOr(map[]), gens.GetOr(map[]), version)
    case _ => DefaultState()
  }

  /**
   * As written, a state file that is not UTF-8 or whose top level is not an
   * object ends the run, and a list naming the three keys is taken as the
   * state; the corrected load starts fresh in each case.
   */
  lemma CorruptFileEndsRun()
    ensures Load(NotUtf8).Raised?
    ensures Load(NonDict(JNull)).Raised?
    ensures Load(NonDict(JNumber)).Raised?
    ensures Load(NonDict(JArray({}))).Raised?
    ensures Load(NonDict(JString(""))).Raised?
    ensures Load(NonDict(JArray({"note_hashes", "last_processed_sha", "llm_generations"}))).KeptValue?
    ensures LoadCorrected(NotUtf8) == LoadCorrected(NonDict(JNull)) == DefaultState()
  {
  }

  /** What `save` writes, as a decoded dictionary with every key present. */
  function Saved(s: State): Stored {
    Decoded(Some(s.lastSha), Some(s.notes), Some(s.generations), s.version)
  }

  /** Saving and loading again gives the same state, with either load. */
  lemma LoadSaved(s: State)
    ensures Load(Saved(s)) == Loaded(s)
    ensures LoadCorrected(Saved(s)) == s
  {
  }

  function SetLastSha(s: State, sha: string): (t: State)
    ensures t.lastSha == Some(sha)
    ensures t.(lastSha := s.lastSha) == s
  {
    s.(lastSha := Some(sha))
  }

  /** `is_note_seen`. */
  predicate IsNoteSeen(s: State, guid: string) {
    guid in s.notes
  }

  /** `has_note_changed`: false for an unseen identity, otherwise whether the stored digest differs. */
  predicate HasNoteChanged(s: State, guid: string, contentHash: string) {
    IsNoteSeen(s, guid) && s.notes[guid].contentHash != contentHash
  }

  /** `record_note` at time `now`. */
  function RecordNote(s: State, guid: string, noteId: Option<int>, deck: string, contentHash: string, now: string): (t: State)
    ensures t.notes.Keys == s.notes.Keys + {guid}
    ensures forall g :: g in s.notes && g != guid ==> t.notes[g] == s.notes[g]
    ensures t.(notes := s.notes) == s
    ensures var e := t.notes[guid];
      && e.noteId == noteId && e.deck == deck && e.contentHash == contentHash && e.updatedAt == now
      && e.createdAt == (if guid in s.notes then s.notes[guid].createdAt else now)
  {
    var e :=
      if guid in s.notes then s.notes[guid].(noteId := noteId, deck := deck, contentHash := contentHash, updatedAt := now)
      else Entry(noteId, deck, contentHash, now, now);
    s.(notes := s.notes[guid := e])
  }

  /** After recording a digest, the note is seen and counts as unchanged for that digest, and changed for any other. */
  lemma RecordedIsUnchanged(s: State, guid: string, noteId: Option<int>, deck: string, contentHash: string, now: string, other: string)
    ensures var t := RecordNote(s, guid, noteId, deck, contentHash, now);
      && IsNoteSeen(t, guid)
      && !HasNoteChanged(t, guid, contentHash)
      && (HasNoteChanged(t, guid, other) <==> other != contentHash)
  {
  }

  /** `get_note_info`. */
  function GetNoteInfo(s: State, guid: string): (r: Option<Entry>)
    ensures r.Some? <==> IsNoteSeen(s, guid)
    ensures r.Some? ==> r.value == s.notes[guid]
  {
    if guid in s.notes then Some(s.notes[guid]) else None
  }

  /** `get_anki_note_id`. */
  function GetAnkiNoteId(s: State, guid: string): (r: Option<int>)
    ensures !IsNoteSeen(s, guid) ==> r.None?
    ensures IsNoteSeen(s, guid) ==> r == s.notes[guid].noteId
  {
    match GetNoteInfo(s, guid)
    case Some(e) => e.noteId
    case None => None
  }

  /** Recording a note makes its external id the one just given. */
  lemma RecordedNoteId(s: State, guid: string, noteId: Option<int>, deck: string, contentHash: string, now: string)
    ensures GetAnkiNoteId(RecordNote(s, guid, noteId, deck, contentHash, now), guid) == noteId
  {
  }

  /** `get_stats`; the deck list is a set, as `list(set(...))` fixes no order. */
  datatype Stats = Stats(totalNotes: nat, lastSha: Option<string>, decks: set<string>)

  function GetStats(s: State): (r: Stats)
    ensures r.totalNotes == |s.notes|
    ensures r.lastSha == s.lastSha
    ensures forall d :: d in r.decks <==> exists g :: g in s.notes && s.notes[g].deck == d
  {
    Stats(|s.notes|, s.lastSha, set g | g in s.notes :: s.notes[g].deck)
  }

  /** `record_llm_generation` at time `now`. */
  function RecordGeneration(s: State, guid: string, response: string, model: string, provider: string, now: string): (t: State)
    ensures t.generations.Keys == s.generations.Keys + {guid}
    ensures t.generations[guid] == Generation(response, now, model, provider)
    ensures forall g :: g in s.generations && g != guid ==> t.generations[g] == s.generations[g]
    ensures t.(generations := s.generations) == s
  {
    s.(generations := s.generations[guid := Generation(response, now, model, provider)])
  }

  function GetGenerationHistory(s: State, guid: string): (r: Option<Generation>)
    ensures r.Some? <==> guid in s.generations
    ensures r.Some? ==> r.value == s.generations[guid]
  {
    if guid in s.generations then Some(s.generations[guid]) else None
  }

  /** A recorded generation is what the history returns for its identity. */
  lemma RecordedGenerationFound(s: State, guid: string, response: string, model: string, provider: string, now: string, other: string)
    ensures var t := RecordGeneration(s, guid, response, model, provider, now);
      && GetGenerationHistory(t, guid) == Some(Generation(response, now, model, provider))
      && (other != guid ==> GetGenerationHistory(t, other) == GetGenerationHistory(s, other))
  {
  }

  function ClearGenerationHistory(s: State): (t: State)
    ensures t.generations == map[]
    ensures t.(generations := s.generations) == s
  {
    s.(generations := map[])
  }

  /** `clear` and the in-memory part of `delete_state_file`. */
  function Clear(s: State): (t: State)
    ensures t == DefaultState()
    ensures !IsNoteSeen(t, "") && GetStats(t).totalNotes == 0
  {
    DefaultState()
  }

  /** The identities a list names, without repetition. */
  function Listed(guids: seq<string>): (r: set<string>)
    ensures forall g :: g in r <==> g in guids
  {
    if guids == [] then {} else Listed(guids[..|guids| - 1]) + {guids[|guids| - 1]}
  }

  lemma ListedSnoc(guids: seq<string>, g: string)
    ensures Listed(guids + [g]) == Listed(guids) + {g}
  {
    assert (guids + [g])[..|guids|] == guids;
  }

  /** The note map without the given identities. */
  function Without(notes: map<string, Entry>, gone: set<string>): (r: map<string, Entry>)
    ensures r.Keys == notes.Keys - gone
    ensures forall g :: g in r ==> r[g] == notes[g]
  {
    map g | g in notes && g !in gone :: notes[g]
  }

  lemma WithoutStep(notes: map<string, Entry>, gone: set<string>, g: string)
    ensures Without(notes, gone + {g}) == Without(notes, gone) - {g}
  {
  }

  /** The notes left after the first `i` listed identities are deleted one by one. */
  function Remaining(notes: map<string, Entry>, guids: seq<string>, i: nat): map<string, Entry>
    requires i <= |guids|
  {
    if i == 0 then notes else Remaining(notes, guids, i - 1) - {guids[i - 1]}
  }

  /** Deleting one by one leaves exactly the notes not listed so far. */
  lemma {:induction false} RemainingIsWithout(notes: map<string, Entry>, guids: seq<string>, i: nat)
    requires i <= |guids|
    ensures Remaining(notes, guids, i) == Without(notes, Listed(guids[..i]))
  {
    if i == 0 {
      assert guids[..0] == [];
      assert Without(notes, {}) == notes;
    } else {
      RemainingIsWithout(notes, guids, i - 1);
      assert guids[..i] == guids[..i - 1] + [guids[i - 1]];
      ListedSnoc(guids[..i - 1], guids[i - 1]);
      WithoutStep(notes, Listed(guids[..i - 1]), guids[i - 1]);
    }
  }

  /** How many of the first `i` listed identities were still present when reached. */
  function Removed(notes: map<string, Entry>, guids: seq<string>, i: nat): nat
    requires i <= |guids|
  {
    if i == 0 then 0
    else Removed(notes, guids, i - 1) + (if guids[i - 1] in Remaining(notes, guids, i - 1) then 1 else 0)
  }

  /**
   * The listed identities that are keys of the map, each at its first
   * listing: a reference for the count, free of the loop.
   */
  function FirstPresent(keys: set<string>, guids: seq<string>): (r: seq<string>)
    ensures forall g :: g in r <==> g in keys && g in guids
    ensures forall i, j :: 0 <= i < j < |r| ==> r[i] != r[j]
  {
    if guids == [] then []
    else
      var earlier := guids[..|guids| - 1];
      var g := guids[|guids| - 1];
      assert guids == earlier + [g];
      FirstPresent(keys, earlier) + (if g in keys && g !in earlier then [g] else [])
  }

  /** The loop's count is the number of present identities listed, each once. */
  lemma {:induction false} RemovedCountsFirstPresent(notes: map<string, Entry>, guids: seq<string>, i: nat)
    requires i <= |guids|
    ensures Removed(notes, guids, i) == |FirstPresent(notes.Keys, guids[..i])|
  {
    if i > 0 {
      RemovedCountsFirstPresent(notes, guids, i - 1);
      RemainingIsWithout(notes, guids, i - 1);
      assert guids[..i][..i - 1] == guids[..i - 1];
    }
  }

  /**
   * The loop of `remove_notes_by_guids`, on the note map alone: each listed
   * identity still present is deleted and counted, so one listed twice counts once.
   */
  method RemoveKeys(notes: map<string, Entry>, guids: seq<string>) returns (rest: map<string, Entry>, removed: nat)
    ensures rest == Without(notes, Listed(guids))
    ensures removed == |FirstPresent(notes.Keys, guids)|
  {
    rest := notes;
    removed := 0;
    var i := 0;
    while i < |guids|
      invariant 0 <= i <= |guids|
      invariant rest == Remaining(notes, guids, i)
      invariant removed == Removed(notes, guids, i)
    {
      var g := guids[i];
      if g in rest {
        removed := removed + 1;
      }
      rest := rest - {g};
      i := i + 1;
    }
    RemovedCountsFirstPresent(notes, guids, |guids|);
    RemainingIsWithout(notes, guids, |guids|);
    assert guids[..|guids|] == guids;
  }

  /** `remove_notes_by_guids`: deletes the listed identities that are present and counts them. */
  method RemoveNotesByGuids(s: State, guids: seq<string>) returns (t: State, removed: nat)
    ensures t.notes.Keys == s.notes.Keys - Listed(guids)
    ensures forall g :: g in t.notes ==> t.notes[g] == s.notes[g]
    ensures t.lastSha == s.lastSha && t.generations == s.generations && t.version == s.version
    ensures removed == |FirstPresent(s.notes.Keys, guids)|
  {
    var rest;
    rest, removed := RemoveKeys(s.notes, guids);
    t := s.(notes := rest);
  }

  /** `get_all_note_guids` (and `get_notes_for_commit`, which ignores its commit): every key once. */
  method GetAllNoteGuids(s: State) returns (r: seq<string>)
    ensures |r| == |s.notes|
    ensures forall g :: g in r <==> g in s.notes
    ensures forall i, j :: 0 <= i < j < |r| ==> r[i] != r[j]
  {
    r := [];
    var rest := s.notes.Keys;
    while rest != {}
      invariant rest <= s.notes.Keys
      invariant forall g :: g in r <==> g in s.notes && g !in rest
      invariant forall i, j :: 0 <= i < j < |r| ==> r[i] != r[j]
      invariant |r| + |rest| == |s.notes|
      decreases |rest|
    {
      var g :| g in rest;
      r := r + [g];
      rest := rest - {g};
    }
  }
}
