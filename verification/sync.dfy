/**
 * What a run does with its note actions (commit/processor.py:374-484):
 * offline, the new and changed notes are exported and recorded without an
 * external id; online, each action becomes calls to the flashcard
 * application and ledger records. The application's replies are a
 * parameter; building the package file and writing marker comments back
 * into sources are not modelled.
 */
module Sync {
  import opened Results
  import opened Text
  import opened NoteModels
  import opened Ledger
  import opened Decisions

  // ---------------------------------------------------------------------
  // Offline

  /** Create and update actions; skips are neither exported nor recorded. */
  predicate Pending(a: NoteAction) {
    a.action == Create || a.action == Update
  }

  /** The notes to export, in action order. */
  function Exported(acts: seq<NoteAction>): (r: seq<Note>)
    ensures |r| <= |acts|
    ensures forall n :: n in r <==> exists a :: a in acts && Pending(a) && a.note == n
    ensures r == [] <==> forall a :: a in acts ==> !Pending(a)
  {
    if acts == [] then []
    else
      assert forall a :: a in acts <==> a == acts[0] || a in acts[1..];
      (if Pending(acts[0]) then [acts[0].note] else []) + Exported(acts[1..])
  }

  /** The ledger records of offline mode: each pending action's block, with no external id. */
  function RecordOffline(s: State, acts: seq<NoteAction>, now: string): (t: State)
    ensures t.lastSha == s.lastSha && t.generations == s.generations && t.version == s.version
    decreases |acts|
  {
    if acts == [] then s
    else
      var a := acts[0];
      var s' := if Pending(a) then RecordNote(s, a.block.guid, None, a.note.deckName, a.block.contentHash, now) else s;
      RecordOffline(s', acts[1..], now)
  }

  /**
   * After the offline records, every pending action's block identity is in
   * the ledger without an external id, and identities of no pending action
   * keep their entries.
   */
  lemma {:induction false} RecordOfflineFacts(s: State, acts: seq<NoteAction>, now: string)
    ensures var t := RecordOffline(s, acts, now);
      && (forall a :: a in acts && Pending(a) ==> a.block.guid in t.notes && t.notes[a.block.guid].noteId.None?)
      && (forall g :: (forall a :: a in acts && Pending(a) ==> a.block.guid != g) ==>
            (g in t.notes <==> g in s.notes) && (g in s.notes ==> t.notes[g] == s.notes[g]))
    decreases |acts|
  {
    if acts != [] {
      var a := acts[0];
      var s' := if Pending(a) then RecordNote(s, a.block.guid, None, a.note.deckName, a.block.contentHash, now) else s;
      RecordOfflineFacts(s', acts[1..], now);
      RecordKeepsRecorded(s', acts[1..], now, a);
      assert forall x :: x in acts <==> x == a || x in acts[1..];
    }
  }

  /** Later offline records keep an identity present without an external id. */
  lemma {:induction false} RecordKeepsRecorded(s: State, acts: seq<NoteAction>, now: string, a: NoteAction)
    requires Pending(a) ==> a.block.guid in s.notes && s.notes[a.block.guid].noteId.None?
    ensures var t := RecordOffline(s, acts, now);
      Pending(a) ==> a.block.guid in t.notes && t.notes[a.block.guid].noteId.None?
    decreases |acts|
  {
    if acts != [] {
      var b := acts[0];
      var s' := if Pending(b) then RecordNote(s, b.block.guid, None, b.note.deckName, b.block.contentHash, now) else s;
      RecordKeepsRecorded(s', acts[1..], now, a);
    }
  }

  /**
   * Offline mode: nothing to export leaves the ledger as it was (the commit
   * pointer does not advance); otherwise the pending actions are recorded
   * and the pointer moves to the commit.
   */
  function OfflineSync(s: State, acts: seq<NoteAction>, sha: string, now: string): (r: (seq<Note>, State))
    ensures r.0 == Exported(acts)
    ensures r.0 == [] ==> r.1 == s
    ensures r.0 != [] ==> r.1.lastSha == Some(sha) && r.1.generations == s.generations
  {
    var notes := Exported(acts);
    if notes == [] then (notes, s)
    else (notes, SetLastSha(RecordOffline(s, acts, now), sha))
  }

  /** After an offline export, every exported action's block is seen, with no external id. */
  lemma OfflineRecordsPending(s: State, acts: seq<NoteAction>, sha: string, now: string, a: NoteAction)
    requires a in acts && Pending(a)
    ensures var t := OfflineSync(s, acts, sha, now).1;
      IsNoteSeen(t, a.block.guid) && GetAnkiNoteId(t, a.block.guid).None?
  {
    RecordOfflineFacts(s, acts, now);
  }

  // ---------------------------------------------------------------------
  // Online

  /** A request to the flashcard application. */
  datatype Call =
    | AddNote(request: AddNoteRequest)
    | UpdateFields(noteId: int, fields: map<string, string>)
    | AddRevisionTag(noteId: int)

  /**
   * The application's answer to the first call an action makes: an answer
   * (the id it returns if a note is added) or an `AnkiConnectError`.
   */
  datatype Reply = Answered(id: Option<int>) | Failed

  /**
   * The online loop's running state: the ledger, the calls made, the
   * duplicates skipped, and whether a call failed, which ends the run.
   */
  datatype Online = Online(ledger: State, calls: seq<Call>, duplicates: nat, aborted: bool)

  /** Python truthiness of an external note id: present and non-zero. */
  predicate TruthyId(id: Option<int>) {
    id.Some? && id.value != 0
  }

  /** `fields.get(key, "")`. */
  function FieldOr(fields: map<string, string>, key: string): string {
    if key in fields then fields[key] else ""
  }

  /**
   * Which identity and digest the online loop records under. As written,
   * the duplicate check uses the note's identity but the records and the id
   * lookup use the block's; the corrected keying uses the note's throughout.
   */
  datatype Keying = AsWritten | ByNote

  function RecordKey(k: Keying, a: NoteAction): string {
    if k == AsWritten then a.block.guid else a.note.guid
  }

  function RecordHash(k: Keying, a: NoteAction): string {
    if k == AsWritten then a.block.contentHash else a.note.contentHash
  }

  /** Records the reply's id when it is truthy. */
  function RecordIfId(k: Keying, o: Online, a: NoteAction, reply: Option<int>, now: string): (r: Online)
    ensures r.calls == o.calls && r.duplicates == o.duplicates
    ensures !TruthyId(reply) ==> r == o
  {
    if TruthyId(reply) then
      o.(ledger := RecordNote(o.ledger, RecordKey(k, a), reply, a.note.deckName, RecordHash(k, a), now))
    else o
  }

  /**
   * Sends the add call, then records the id when the reply is a truthy id;
   * a failed call aborts the run with the call still listed.
   */
  function AddAndRecord(k: Keying, o: Online, a: NoteAction, reply: Reply, now: string): (r: Online)
    ensures r.calls == o.calls + [AddNote(ToAnkiConnect(a.note))] && r.duplicates == o.duplicates
    ensures r.aborted == (o.aborted || reply.Failed?)
    ensures reply.Failed? ==> r.ledger == o.ledger
  {
    var o' := o.(calls := o.calls + [AddNote(ToAnkiConnect(a.note))]);
    match reply
    case Failed => o'.(aborted := true)
    case Answered(id) => RecordIfId(k, o', a, id, now)
  }

  /**
   * One action of the online loop; `reply` answers the action's first call.
   * Once the run has aborted, no further action is handled.
   */
  function OnlineStep(k: Keying, o: Online, a: NoteAction, reply: Reply, now: string): (r: Online)
    ensures r.ledger.lastSha == o.ledger.lastSha && r.ledger.generations == o.ledger.generations
    ensures a.action == Skip || o.aborted ==> r == o
    ensures !o.aborted ==> (r.aborted <==> reply.Failed? && |r.calls| > |o.calls|)
    ensures r.aborted && !o.aborted ==> r.ledger == o.ledger
    ensures |r.calls| >= |o.calls| && r.calls[..|o.calls|] == o.calls
  {
    var n := a.note;
    if o.aborted then o
    else match a.action
    case Skip => o
    case Create =>
      if ValidateCardContent(FieldOr(n.fields, "Front"), FieldOr(n.fields, "Back"), n.modelName).Some? then o
      else if IsNoteSeen(o.ledger, n.guid) then o.(duplicates := o.duplicates + 1)
      else AddAndRecord(k, o, a, reply, now)
    case Update =>
      var id := GetAnkiNoteId(o.ledger, RecordKey(k, a));
      if TruthyId(id) then
        var o' := o.(calls := o.calls + [UpdateFields(id.value, n.fields)]);
        if reply.Failed? then o'.(aborted := true)
        else
          var o'' := o'.(calls := o'.calls + [AddRevisionTag(id.value)]);
          o''.(ledger := RecordNote(o''.ledger, RecordKey(k, a), id, n.deckName, RecordHash(k, a), now))
      else AddAndRecord(k, o, a, reply, now)
  }

  /** The loop from action `i` on; `replies(i)` answers the first call made while handling action `i`. */
  function OnlineRun(k: Keying, o: Online, acts: seq<NoteAction>, i: nat, replies: nat -> Reply, now: string): (r: Online)
    requires i <= |acts|
    ensures r.ledger.lastSha == o.ledger.lastSha && r.ledger.generations == o.ledger.generations
    ensures |r.calls| >= |o.calls| && r.calls[..|o.calls|] == o.calls
    ensures o.aborted ==> r == o
    ensures r.aborted && !o.aborted ==> exists j :: i <= j < |acts| && replies(j).Failed?
    ensures (forall j :: i <= j < |acts| ==> replies(j).Answered?) ==> r.aborted == o.aborted
    decreases |acts| - i
  {
    if i == |acts| then o
    else
      var o' := OnlineStep(k, o, acts[i], replies(i), now);
      OnlineRun(k, o', acts, i + 1, replies, now)
  }

  /**
   * The end of online mode: after a failed call nothing is saved and the
   * ledger stays as the run found it; otherwise the commit pointer moves.
   */
  function FinishOnline(s: State, o: Online, sha: string): (r: Online)
    ensures r.aborted == o.aborted && r.calls == o.calls
    ensures r.aborted ==> r.ledger == s
    ensures !r.aborted ==> r.ledger == SetLastSha(o.ledger, sha)
  {
    if o.aborted then o.(ledger := s) else o.(ledger := SetLastSha(o.ledger, sha))
  }

  /**
   * Online mode as written: the loop, then the commit pointer moves and the
   * ledger is saved, unless some call failed, in which case the run ends
   * with an error and saves nothing.
   */
  function SyncOnline(s: State, acts: seq<NoteAction>, replies: nat -> Reply, sha: string, now: string): (r: Online)
    ensures r.aborted ==> r.ledger == s && exists j :: 0 <= j < |acts| && replies(j).Failed?
    ensures !r.aborted ==> r.ledger.lastSha == Some(sha) && r.ledger.generations == s.generations
    ensures (forall j :: 0 <= j < |acts| ==> replies(j).Answered?) ==> !r.aborted
  {
    FinishOnline(s, OnlineRun(AsWritten, Online(s, [], 0, false), acts, 0, replies, now), sha)
  }

  /** Online mode keyed by the note's own identity and digest. */
  function SyncOnlineByNote(s: State, acts: seq<NoteAction>, replies: nat -> Reply, sha: string, now: string): (r: Online)
    ensures r.aborted ==> r.ledger == s && exists j :: 0 <= j < |acts| && replies(j).Failed?
    ensures !r.aborted ==> r.ledger.lastSha == Some(sha) && r.ledger.generations == s.generations
    ensures (forall j :: 0 <= j < |acts| ==> replies(j).Answered?) ==> !r.aborted
  {
    FinishOnline(s, OnlineRun(ByNote, Online(s, [], 0, false), acts, 0, replies, now), sha)
  }

  /**
   * A failed add for a valid new create ends the run: the call was sent,
   * the ledger keeps its commit pointer and its notes, and no later action
   * is handled.
   */
  lemma FailedAddAborts(s: State, a: NoteAction, rest: seq<NoteAction>, replies: nat -> Reply, sha: string, now: string)
    requires DerivedCreate(s, a) && replies(0).Failed?
    ensures var r := SyncOnline(s, [a] + rest, replies, sha, now);
      && r.aborted && r.ledger == s
      && r.calls == [AddNote(ToAnkiConnect(a.note))]
  {
    var acts := [a] + rest;
    var o1 := OnlineStep(AsWritten, Online(s, [], 0, false), a, replies(0), now);
    assert o1.aborted && o1.calls == [AddNote(ToAnkiConnect(a.note))];
    assert acts[0] == a;
    assert OnlineRun(AsWritten, Online(s, [], 0, false), acts, 0, replies, now)
        == OnlineRun(AsWritten, o1, acts, 1, replies, now);
  }

  /** A valid create whose identity is already in the ledger is counted as a duplicate and sends nothing. */
  lemma CreateOfSeenIsDuplicate(k: Keying, o: Online, a: NoteAction, reply: Reply, now: string)
    requires !o.aborted && a.action == Create && IsNoteSeen(o.ledger, a.note.guid)
    requires ValidateCardContent(FieldOr(a.note.fields, "Front"), FieldOr(a.note.fields, "Back"), a.note.modelName).None?
    ensures OnlineStep(k, o, a, reply, now) == o.(duplicates := o.duplicates + 1)
  {
  }

  /**
   * The ledger changes only through a truthy id, the reply's or the stored
   * one, and only at the action's record key.
   */
  lemma StepRecordsOnlyWithId(k: Keying, o: Online, a: NoteAction, reply: Reply, now: string)
    ensures var r := OnlineStep(k, o, a, reply, now);
      && (r.ledger.notes != o.ledger.notes ==>
            (reply.Answered? && TruthyId(reply.id)) || (a.action == Update && TruthyId(GetAnkiNoteId(o.ledger, RecordKey(k, a)))))
      && (forall g :: g != RecordKey(k, a) ==>
            (g in r.ledger.notes <==> g in o.ledger.notes) && (g in o.ledger.notes ==> r.ledger.notes[g] == o.ledger.notes[g]))
  {
  }

  /** For notes that carry their block's identity and digest, as basic notes do, both keyings agree. */
  lemma {:induction false} KeyingsAgreeOnBasicNotes(o: Online, acts: seq<NoteAction>, i: nat, replies: nat -> Reply, now: string)
    requires i <= |acts|
    requires forall j :: 0 <= j < |acts| ==> acts[j].note.guid == acts[j].block.guid && acts[j].note.contentHash == acts[j].block.contentHash
    ensures OnlineRun(AsWritten, o, acts, i, replies, now) == OnlineRun(ByNote, o, acts, i, replies, now)
    decreases |acts| - i
  {
    if i < |acts| {
      StepKeyingsAgree(o, acts[i], replies(i), now);
      KeyingsAgreeOnBasicNotes(OnlineStep(AsWritten, o, acts[i], replies(i), now), acts, i + 1, replies, now);
    }
  }

  /** One step of the loop is the same under both keyings when the note carries its block's identity and digest. */
  lemma StepKeyingsAgree(o: Online, a: NoteAction, reply: Reply, now: string)
    requires a.note.guid == a.block.guid && a.note.contentHash == a.block.contentHash
    ensures OnlineStep(AsWritten, o, a, reply, now) == OnlineStep(ByNote, o, a, reply, now)
  {
    assert RecordKey(AsWritten, a) == RecordKey(ByNote, a);
    assert RecordHash(AsWritten, a) == RecordHash(ByNote, a);
  }

  /** One create action for a derived card, as the batch path produces it. */
  predicate DerivedCreate(s: State, a: NoteAction) {
    && a.action == Create
    && a.note.guid != a.block.guid
    && a.note.guid !in s.notes
    && ValidateCardContent(FieldOr(a.note.fields, "Front"), FieldOr(a.note.fields, "Back"), a.note.modelName).None?
  }

  /**
   * As written, syncing a derived card records its block, not the card: the
   * card is still unseen afterwards, so the next run classifies it as new
   * and adds it again.
   */
  lemma DerivedCardAddedAgain(s: State, a: NoteAction, replies: nat -> Reply, sha: string, now: string)
    requires DerivedCreate(s, a) && replies(0).Answered? && TruthyId(replies(0).id)
    ensures var t := SyncOnline(s, [a], replies, sha, now).ledger;
      && !IsNoteSeen(t, a.note.guid)
      && Classify(t, a.note.guid, a.note.contentHash) == Create
      && SyncOnline(t, [a], replies, sha, now).calls == [AddNote(ToAnkiConnect(a.note))]
  {
    var o1 := OnlineStep(AsWritten, Online(s, [], 0, false), a, replies(0), now);
    assert o1.ledger == RecordNote(s, a.block.guid, replies(0).id, a.note.deckName, a.block.contentHash, now);
    assert OnlineRun(AsWritten, Online(s, [], 0, false), [a], 0, replies, now) == o1;
    var t := SetLastSha(o1.ledger, sha);
    assert a.note.guid !in t.notes;
    var o2 := OnlineStep(AsWritten, Online(t, [], 0, false), a, replies(0), now);
    assert o2.calls == [AddNote(ToAnkiConnect(a.note))];
    assert OnlineRun(AsWritten, Online(t, [], 0, false), [a], 0, replies, now) == o2;
  }

  /**
   * Keyed by the note, the card is recorded with its own digest: the next
   * run classifies it as unchanged and sends nothing.
   */
  lemma DerivedCardRecorded(s: State, a: NoteAction, replies: nat -> Reply, sha: string, now: string)
    requires DerivedCreate(s, a) && replies(0).Answered? && TruthyId(replies(0).id)
    ensures var t := SyncOnlineByNote(s, [a], replies, sha, now).ledger;
      && GetAnkiNoteId(t, a.note.guid) == replies(0).id
      && Classify(t, a.note.guid, a.note.contentHash) == Skip
      && SyncOnlineByNote(t, [a.(action := Classify(t, a.note.guid, a.note.contentHash))], replies, sha, now).calls == []
  {
    var o1 := OnlineStep(ByNote, Online(s, [], 0, false), a, replies(0), now);
    assert o1.ledger == RecordNote(s, a.note.guid, replies(0).id, a.note.deckName, a.note.contentHash, now);
    assert OnlineRun(ByNote, Online(s, [], 0, false), [a], 0, replies, now) == o1;
    var t := SetLastSha(o1.ledger, sha);
    assert Classify(t, a.note.guid, a.note.contentHash) == Skip;
    var a2 := a.(action := Skip);
    assert OnlineRun(ByNote, Online(t, [], 0, false), [a2], 0, replies, now) == Online(t, [], 0, false);
  }
}
