/** The store behind the alias index: local operations check and maintain it, changes from elsewhere drop it. */
module Linking {
  import opened Wrappers
  import opened AliasIndexes

  datatype Store = Store(notes: map<NoteId, Note>, notebooks: map<NotebookId, Notebook>, index: Option<Index>)

  predicate WellKeyed(s: Store) {
    && (forall id <- s.notes :: s.notes[id].id == id)
    && (forall id <- s.notebooks :: s.notebooks[id].id == id)
  }

  // What the listings return: every live note and notebook, in any order; repeats and deleted ones would do no harm.
  predicate Lists(s: Store, notes: seq<Note>, notebooks: seq<Notebook>) {
    && (forall n <- notes :: n.id in s.notes && s.notes[n.id] == n)
    && (forall id <- s.notes :: !s.notes[id].deleted ==> s.notes[id] in notes)
    && (forall b <- notebooks :: b.id in s.notebooks && s.notebooks[b.id] == b)
    && (forall id <- s.notebooks :: !s.notebooks[id].deleted ==> s.notebooks[id] in notebooks)
  }

  function NoteEntries(notes: map<NoteId, Note>): map<NoteId, Placed> {
    map id | id in notes && Indexed(notes[id]) :: Placed(notes[id].alias.value, notes[id].notebook)
  }

  function NotebookEntries(notebooks: map<NotebookId, Notebook>): map<NotebookId, Alias> {
    map id | id in notebooks && NotebookIndexed(notebooks[id]) :: notebooks[id].alias.value
  }

  ghost predicate IsIndexOf(x: Index, s: Store) {
    Agree(x) && x.aliasedNotes == NoteEntries(s.notes) && x.aliasedNotebooks == NotebookEntries(s.notebooks)
  }

  // ---- A rebuild is the index of the store, whatever the order ----

  lemma {:induction false} WithNotesEntries(x: Index, s: Store, notes: seq<Note>)
    requires NotesAgree(x) && x.aliasedNotes == map[]
    requires forall n <- notes :: n.id in s.notes && s.notes[n.id] == n
    ensures var y := WithNotes(x, notes);
            && NotesAgree(y) && y.notebookAliases == x.notebookAliases && y.aliasedNotebooks == x.aliasedNotebooks
            && (forall id <- y.aliasedNotes :: id in s.notes && s.notes[id] in notes && id in NoteEntries(s.notes)
                                               && y.aliasedNotes[id] == NoteEntries(s.notes)[id])
            && (forall n <- notes :: Indexed(n) ==> n.id in y.aliasedNotes)
  {
    if notes != [] {
      var front, last := notes[..|notes| - 1], notes[|notes| - 1];
      assert last in notes;
      WithNotesEntries(x, s, front);
      NoteUpsertedAgrees(WithNotes(x, front), last);
      assert notes == front + [last];
    }
  }

  lemma {:induction false} WithNotebooksEntries(x: Index, s: Store, notebooks: seq<Notebook>)
    requires NotebooksAgree(x) && x.aliasedNotebooks == map[]
    requires forall b <- notebooks :: b.id in s.notebooks && s.notebooks[b.id] == b
    ensures var y := WithNotebooks(x, notebooks);
            && NotebooksAgree(y) && y.noteAliases == x.noteAliases && y.aliasedNotes == x.aliasedNotes
            && (forall id <- y.aliasedNotebooks :: id in NotebookEntries(s.notebooks) && y.aliasedNotebooks[id] == NotebookEntries(s.notebooks)[id])
            && (forall b <- notebooks :: NotebookIndexed(b) ==> b.id in y.aliasedNotebooks)
  {
    if notebooks != [] {
      var front, last := notebooks[..|notebooks| - 1], notebooks[|notebooks| - 1];
      assert last in notebooks;
      WithNotebooksEntries(x, s, front);
      NotebookUpsertedAgrees(WithNotebooks(x, front), last);
      assert notebooks == front + [last];
    }
  }

  lemma RebuildIsIndex(s: Store, notes: seq<Note>, notebooks: seq<Notebook>)
    requires WellKeyed(s) && Lists(s, notes, notebooks)
    ensures IsIndexOf(FromSnapshots(notes, notebooks), s)
  {
    WithNotesEntries(EMPTY, s, notes);
    var x := WithNotes(EMPTY, notes);
    WithNotebooksEntries(x, s, notebooks);
    var y := FromSnapshots(notes, notebooks);
    forall id <- NoteEntries(s.notes) ensures id in y.aliasedNotes {
      assert s.notes[id] in notes;
    }
    forall id <- NotebookEntries(s.notebooks) ensures id in y.aliasedNotebooks {
      assert s.notebooks[id] in notebooks;
    }
    assert y.aliasedNotes == NoteEntries(s.notes);
    assert y.aliasedNotebooks == NotebookEntries(s.notebooks);
    assert NotesAgree(y) by {
      forall a, p ensures Holds(y.noteAliases, a, p) <==> NoteSaid(y, a, p) {
        assert Holds(x.noteAliases, a, p) <==> NoteSaid(x, a, p);
      }
    }
  }

  /** An index of the store equals a rebuild from the store, in whatever order the listings come. */
  lemma IndexEqualsRebuild(s: Store, x: Index, notes: seq<Note>, notebooks: seq<Notebook>)
    requires WellKeyed(s) && Lists(s, notes, notebooks) && IsIndexOf(x, s)
    ensures x == FromSnapshots(notes, notebooks)
  {
    RebuildIsIndex(s, notes, notebooks);
    AgreeDetermines(x, FromSnapshots(notes, notebooks));
  }

  // ---- Operations ----

  datatype Listing = Listing(notes: seq<Note>, notebooks: seq<Notebook>)

  datatype Outcome = Done | Conflict | NotFound | Failed

  // `seen` is what the listings return if the index has to be built; `accepts` whether the store below takes the write.
  datatype Op =
    | CreateNote(note: Note, seen: Listing, accepts: bool)
    | UpdateNote(note: Note, seen: Listing, accepts: bool)
    | DeleteNote(id: NoteId, accepts: bool)
    | CreateNotebook(notebook: Notebook, seen: Listing, accepts: bool)
    | UpdateNotebook(notebook: Notebook, seen: Listing, accepts: bool)
    | DeleteNotebook(notebookId: NotebookId, accepts: bool)
    | ApplyNote(note: Note)              // a change from elsewhere, however it is merged
    | ApplyNotebook(notebook: Notebook)

  predicate Local(op: Op) {
    !op.ApplyNote? && !op.ApplyNotebook?
  }

  predicate SeenRight(s: Store, op: Op) {
    match op
    case CreateNote(_, seen, _) => Lists(s, seen.notes, seen.notebooks)
    case UpdateNote(_, seen, _) => Lists(s, seen.notes, seen.notebooks)
    case CreateNotebook(_, seen, _) => Lists(s, seen.notes, seen.notebooks)
    case UpdateNotebook(_, seen, _) => Lists(s, seen.notes, seen.notebooks)
    case _ => true
  }

  // The index, built now if it is not there.
  function CurrentIndex(s: Store, seen: Listing): Index {
    if s.index.Some? then s.index.value else FromSnapshots(seen.notes, seen.notebooks)
  }

  predicate NoteAliasTaken(x: Index, alias: Alias, self: NoteId, notebook: NotebookId) {
    alias in x.noteAliases && exists p <- x.noteAliases[alias] :: p.note != self && p.notebook == notebook
  }

  predicate NotebookAliasTaken(x: Index, alias: Alias, self: NotebookId) {
    alias in x.notebookAliases && exists id <- x.notebookAliases[alias] :: id != self
  }

  // An Inbox note carries no alias.
  function Prepared(note: Note): Note {
    if note.notebook == INBOX then note.(alias := None) else note
  }

  function PutNote(s: Store, note: Note): Store {
    s.(notes := s.notes[note.id := note], index := if s.index.Some? then Some(NoteUpserted(s.index.value, note)) else None)
  }

  function PutNotebook(s: Store, notebook: Notebook): Store {
    s.(notebooks := s.notebooks[notebook.id := notebook],
       index := if s.index.Some? then Some(NotebookUpserted(s.index.value, notebook)) else None)
  }

  // The index is asked whether the alias is taken and where the links lead.
  predicate AsksIndex(note: Note) {
    note.notebook != INBOX && (note.alias.Some? || note.linked)
  }

  // Asking the index leaves it built, also when the operation fails.
  function WriteNote(s: Store, note: Note, seen: Listing, accepts: bool, mustExist: bool): (Store, Outcome) {
    var n := Prepared(note);
    var x := CurrentIndex(s, seen);
    var t := if AsksIndex(n) then s.(index := Some(x)) else s;
    if n.alias.Some? && NoteAliasTaken(x, n.alias.value, n.id, n.notebook) then (t, Conflict)
    else if mustExist && n.id !in s.notes then (t, NotFound)
    else if !accepts then (t, Failed)
    else (PutNote(t, n), Done)
  }

  function WriteNotebook(s: Store, notebook: Notebook, seen: Listing, accepts: bool, mustExist: bool): (Store, Outcome) {
    var x := CurrentIndex(s, seen);
    var t := if notebook.alias.Some? then s.(index := Some(x)) else s;
    if notebook.alias.Some? && NotebookAliasTaken(x, notebook.alias.value, notebook.id) then (t, Conflict)
    else if mustExist && notebook.id !in s.notebooks then (t, NotFound)
    else if !accepts then (t, Failed)
    else (PutNotebook(t, notebook), Done)
  }

  function Next(s: Store, op: Op): (Store, Outcome) {
    match op
    case CreateNote(note, seen, accepts) => WriteNote(s, note, seen, accepts, false)
    case UpdateNote(note, seen, accepts) => WriteNote(s, note, seen, accepts, true)
    case DeleteNote(id, accepts) =>
      if id !in s.notes then (s, NotFound)
      else if !accepts then (s, Failed)
      else
        (s.(notes := s.notes[id := s.notes[id].(deleted := true)],
            index := if s.index.Some? then Some(NoteRemoved(s.index.value, id)) else None), Done)
    case CreateNotebook(notebook, seen, accepts) => WriteNotebook(s, notebook, seen, accepts, false)
    case UpdateNotebook(notebook, seen, accepts) => WriteNotebook(s, notebook, seen, accepts, true)
    case DeleteNotebook(id, accepts) =>
      if id !in s.notebooks then (s, NotFound)
      else if !accepts then (s, Failed)
      else
        (s.(notebooks := s.notebooks[id := s.notebooks[id].(deleted := true)],
            index := if s.index.Some? then Some(NotebookRemoved(s.index.value, id)) else None), Done)
    case ApplyNote(note) => (s.(notes := s.notes[note.id := note], index := None), Done)
    case ApplyNotebook(notebook) => (s.(notebooks := s.notebooks[notebook.id := notebook], index := None), Done)
  }

  predicate Legal(s: Store, ops: seq<Op>)
    decreases |ops|, 0
  {
    ops == [] || (
      var k := |ops| - 1;
      Legal(s, ops[..k]) && SeenRight(Run(s, ops[..k]), ops[k]))
  }

  function Run(s: Store, ops: seq<Op>): Store
    requires Legal(s, ops)
    decreases |ops|, 1
  {
    if ops == [] then s else Next(Run(s, ops[..|ops| - 1]), ops[|ops| - 1]).0
  }

  // ---- The cached index is always the index of the store ----

  ghost predicate Inv(s: Store) {
    WellKeyed(s) && (s.index.Some? ==> IsIndexOf(s.index.value, s))
  }

  lemma CurrentIndexIsIndex(s: Store, seen: Listing)
    requires Inv(s) && Lists(s, seen.notes, seen.notebooks)
    ensures IsIndexOf(CurrentIndex(s, seen), s)
  {
    if s.index.None? {
      RebuildIsIndex(s, seen.notes, seen.notebooks);
    }
  }

  lemma PutNoteKeepsInv(s: Store, note: Note)
    requires Inv(s)
    ensures Inv(PutNote(s, note))
  {
    if s.index.Some? {
      var x := s.index.value;
      NoteUpsertedAgrees(x, note);
      var y := NoteUpserted(x, note);
      assert y.aliasedNotes == NoteEntries(s.notes[note.id := note]);
      assert NotebooksAgree(y) by {
        forall a, id ensures Holds(y.notebookAliases, a, id) <==> NotebookSaid(y, a, id) {
          assert Holds(x.notebookAliases, a, id) <==> NotebookSaid(x, a, id);
        }
      }
    }
  }

  lemma PutNotebookKeepsInv(s: Store, notebook: Notebook)
    requires Inv(s)
    ensures Inv(PutNotebook(s, notebook))
  {
    if s.index.Some? {
      var x := s.index.value;
      NotebookUpsertedAgrees(x, notebook);
      var y := NotebookUpserted(x, notebook);
      assert y.aliasedNotebooks == NotebookEntries(s.notebooks[notebook.id := notebook]);
      assert NotesAgree(y) by {
        forall a, p ensures Holds(y.noteAliases, a, p) <==> NoteSaid(y, a, p) {
          assert Holds(x.noteAliases, a, p) <==> NoteSaid(x, a, p);
        }
      }
    }
  }

  // Deleting is upserting the deleted entity.
  lemma DeleteIsPut(s: Store, id: NoteId)
    requires WellKeyed(s) && id in s.notes
    ensures Next(s, DeleteNote(id, true)).0 == PutNote(s, s.notes[id].(deleted := true))
  {
  }

  lemma DeleteNotebookIsPut(s: Store, id: NotebookId)
    requires WellKeyed(s) && id in s.notebooks
    ensures Next(s, DeleteNotebook(id, true)).0 == PutNotebook(s, s.notebooks[id].(deleted := true))
  {
  }

  lemma WriteNoteKeepsInv(s: Store, note: Note, seen: Listing, accepts: bool, mustExist: bool)
    requires Inv(s) && Lists(s, seen.notes, seen.notebooks)
    ensures Inv(WriteNote(s, note, seen, accepts, mustExist).0)
  {
    CurrentIndexIsIndex(s, seen);
    var n := Prepared(note);
    var t := if AsksIndex(n) then s.(index := Some(CurrentIndex(s, seen))) else s;
    assert Inv(t);
    PutNoteKeepsInv(t, n);
  }

  lemma WriteNotebookKeepsInv(s: Store, notebook: Notebook, seen: Listing, accepts: bool, mustExist: bool)
    requires Inv(s) && Lists(s, seen.notes, seen.notebooks)
    ensures Inv(WriteNotebook(s, notebook, seen, accepts, mustExist).0)
  {
    CurrentIndexIsIndex(s, seen);
    var t := if notebook.alias.Some? then s.(index := Some(CurrentIndex(s, seen))) else s;
    assert Inv(t);
    PutNotebookKeepsInv(t, notebook);
  }

  lemma StepKeepsInv(s: Store, op: Op)
    requires Inv(s) && SeenRight(s, op)
    ensures Inv(Next(s, op).0)
  {
    match op
    case CreateNote(note, seen, accepts) => WriteNoteKeepsInv(s, note, seen, accepts, false);
    case UpdateNote(note, seen, accepts) => WriteNoteKeepsInv(s, note, seen, accepts, true);
    case CreateNotebook(notebook, seen, accepts) => WriteNotebookKeepsInv(s, notebook, seen, accepts, false);
    case UpdateNotebook(notebook, seen, accepts) => WriteNotebookKeepsInv(s, notebook, seen, accepts, true);
    case DeleteNote(id, accepts) =>
      if id in s.notes && accepts {
        DeleteIsPut(s, id);
        PutNoteKeepsInv(s, s.notes[id].(deleted := true));
      }
    case DeleteNotebook(id, accepts) =>
      if id in s.notebooks && accepts {
        DeleteNotebookIsPut(s, id);
        PutNotebookKeepsInv(s, s.notebooks[id].(deleted := true));
      }
    case _ =>
  }

  lemma {:induction false} RunKeepsInv(s: Store, ops: seq<Op>)
    requires Inv(s) && Legal(s, ops)
    ensures Inv(Run(s, ops))
  {
    if ops != [] {
      var k := |ops| - 1;
      RunKeepsInv(s, ops[..k]);
      StepKeepsInv(Run(s, ops[..k]), ops[k]);
    }
  }

  /** Through every sequence of operations, local or from elsewhere, the cached index is the one a rebuild would give. */
  lemma CachedIndexEqualsRebuild(s: Store, ops: seq<Op>, notes: seq<Note>, notebooks: seq<Notebook>)
    requires Inv(s) && Legal(s, ops) && Run(s, ops).index.Some?
    requires Lists(Run(s, ops), notes, notebooks)
    ensures Run(s, ops).index.value == FromSnapshots(notes, notebooks)
  {
    RunKeepsInv(s, ops);
    IndexEqualsRebuild(Run(s, ops), Run(s, ops).index.value, notes, notebooks);
  }

  // ---- Aliases stay free of conflicts ----

  predicate Clash(m: Note, n: Note) {
    m.id != n.id && Indexed(m) && Indexed(n) && m.alias == n.alias && m.notebook == n.notebook
  }

  predicate ConflictFree(s: Store) {
    NotesApart(s.notes) && NotebooksApart(s.notebooks)
  }

  // The check finds an alias taken exactly when a live note outside the Inbox, other than this one, has it in that notebook.
  lemma NoteAliasTakenIff(s: Store, x: Index, note: Note)
    requires WellKeyed(s) && IsIndexOf(x, s) && note.alias.Some? && note.notebook != INBOX
    ensures NoteAliasTaken(x, note.alias.value, note.id, note.notebook)
            <==> exists id <- s.notes :: id != note.id && Indexed(s.notes[id]) && s.notes[id].alias == note.alias && s.notes[id].notebook == note.notebook
  {
    var a := note.alias.value;
    if NoteAliasTaken(x, a, note.id, note.notebook) {
      var p :| p in x.noteAliases[a] && p.note != note.id && p.notebook == note.notebook;
      assert Holds(x.noteAliases, a, p);
      assert NoteSaid(x, a, p);
      assert p.note in NoteEntries(s.notes);
    }
    if id :| id in s.notes && id != note.id && Indexed(s.notes[id]) && s.notes[id].alias == note.alias && s.notes[id].notebook == note.notebook {
      var p := Ref(id, note.notebook);
      assert id in NoteEntries(s.notes);
      assert NoteSaid(x, a, p);
      assert Holds(x.noteAliases, a, p);
    }
  }

  lemma NotebookAliasTakenIff(s: Store, x: Index, notebook: Notebook)
    requires WellKeyed(s) && IsIndexOf(x, s) && notebook.alias.Some?
    ensures NotebookAliasTaken(x, notebook.alias.value, notebook.id)
            <==> exists id <- s.notebooks :: id != notebook.id && NotebookIndexed(s.notebooks[id]) && s.notebooks[id].alias == notebook.alias
  {
    var a := notebook.alias.value;
    if NotebookAliasTaken(x, a, notebook.id) {
      var id :| id in x.notebookAliases[a] && id != notebook.id;
      assert Holds(x.notebookAliases, a, id);
      assert NotebookSaid(x, a, id);
      assert id in NotebookEntries(s.notebooks);
    }
    if id :| id in s.notebooks && id != notebook.id && NotebookIndexed(s.notebooks[id]) && s.notebooks[id].alias == notebook.alias {
      assert id in NotebookEntries(s.notebooks);
      assert NotebookSaid(x, a, id);
      assert Holds(x.notebookAliases, a, id);
    }
  }

  // ---- What an operation answers, and what it leaves in the store ----

  // Another live note of this note's notebook, not the Inbox, has its alias.
  predicate HasRival(s: Store, note: Note) {
    && note.notebook != INBOX && note.alias.Some?
    && exists id <- s.notes ::
         id != note.id && !s.notes[id].deleted && s.notes[id].notebook == note.notebook && s.notes[id].alias == note.alias
  }

  predicate NotebookHasRival(s: Store, notebook: Notebook) {
    && notebook.alias.Some?
    && exists id <- s.notebooks :: id != notebook.id && !s.notebooks[id].deleted && s.notebooks[id].alias == notebook.alias
  }

  // The note as it is given, but in the Inbox without its alias.
  predicate StoredAs(n: Note, note: Note) {
    && n.id == note.id && n.notebook == note.notebook && n.deleted == note.deleted && n.linked == note.linked && n.body == note.body
    && n.alias == if note.notebook == INBOX then None else note.alias
  }

  /**
   A create or update is refused with a conflict exactly if another live note of the notebook has the
   alias, otherwise an update of a missing note is not found, otherwise it is done exactly if the store
   below takes it; done, just that note is there as given, and else the notes are as they were.
   */
  lemma WriteNoteMeaning(s: Store, note: Note, seen: Listing, accepts: bool, mustExist: bool)
    requires Inv(s) && Lists(s, seen.notes, seen.notebooks)
    ensures var (t, outcome) := WriteNote(s, note, seen, accepts, mustExist);
            && outcome == (if HasRival(s, note) then Conflict
                           else if mustExist && note.id !in s.notes then NotFound
                           else if accepts then Done else Failed)
            && t.notebooks == s.notebooks
            && (t.index.Some? <==> s.index.Some? || (note.notebook != INBOX && (note.alias.Some? || note.linked)))
            && if outcome.Done? then
                 && t.notes.Keys == s.notes.Keys + {note.id} && StoredAs(t.notes[note.id], note)
                 && forall id <- s.notes :: id != note.id ==> t.notes[id] == s.notes[id]
               else t.notes == s.notes
  {
    WriteNoteAnswers(s, note, seen, accepts, mustExist);
    WriteNoteLeaves(s, note, seen, accepts, mustExist);
  }

  lemma WriteNoteAnswers(s: Store, note: Note, seen: Listing, accepts: bool, mustExist: bool)
    requires Inv(s) && Lists(s, seen.notes, seen.notebooks)
    ensures WriteNote(s, note, seen, accepts, mustExist).1
            == if HasRival(s, note) then Conflict
               else if mustExist && note.id !in s.notes then NotFound
               else if accepts then Done else Failed
  {
    CurrentIndexIsIndex(s, seen);
    if note.notebook != INBOX && note.alias.Some? {
      TakenIsRival(s, CurrentIndex(s, seen), note);
    }
  }

  lemma PutNoteLeaves(s: Store, note: Note)
    ensures var t := PutNote(s, note);
            && t.notebooks == s.notebooks && (t.index.Some? <==> s.index.Some?)
            && t.notes.Keys == s.notes.Keys + {note.id} && t.notes[note.id] == note
            && forall id <- s.notes :: id != note.id ==> t.notes[id] == s.notes[id]
  {
  }

  lemma WriteNoteLeaves(s: Store, note: Note, seen: Listing, accepts: bool, mustExist: bool)
    ensures var (t, outcome) := WriteNote(s, note, seen, accepts, mustExist);
            && t.notebooks == s.notebooks
            && (t.index.Some? <==> s.index.Some? || (note.notebook != INBOX && (note.alias.Some? || note.linked)))
            && if outcome.Done? then
                 && t.notes.Keys == s.notes.Keys + {note.id} && StoredAs(t.notes[note.id], note)
                 && forall id <- s.notes :: id != note.id ==> t.notes[id] == s.notes[id]
               else t.notes == s.notes
  {
    var n := Prepared(note);
    PutNoteLeaves(if AsksIndex(n) then s.(index := Some(CurrentIndex(s, seen))) else s, n);
  }

  lemma TakenIsRival(s: Store, x: Index, note: Note)
    requires WellKeyed(s) && IsIndexOf(x, s) && note.alias.Some? && note.notebook != INBOX
    ensures NoteAliasTaken(x, note.alias.value, note.id, note.notebook) <==> HasRival(s, note)
  {
    NoteAliasTakenIff(s, x, note);
  }

  lemma WriteNotebookMeaning(s: Store, notebook: Notebook, seen: Listing, accepts: bool, mustExist: bool)
    requires Inv(s) && Lists(s, seen.notes, seen.notebooks)
    ensures var (t, outcome) := WriteNotebook(s, notebook, seen, accepts, mustExist);
            && outcome == (if NotebookHasRival(s, notebook) then Conflict
                           else if mustExist && notebook.id !in s.notebooks then NotFound
                           else if accepts then Done else Failed)
            && t.notes == s.notes
            && t.notebooks == (if outcome.Done? then s.notebooks[notebook.id := notebook] else s.notebooks)
            && (t.index.Some? <==> s.index.Some? || notebook.alias.Some?)
  {
    CurrentIndexIsIndex(s, seen);
    if notebook.alias.Some? {
      NotebookAliasTakenIff(s, CurrentIndex(s, seen), notebook);
    }
  }

  /** Every operation answers, and changes the store below, just so: deletions mark what is there, and a change from elsewhere is taken as it comes. */
  lemma OperationMeaning(s: Store, op: Op)
    requires Inv(s) && SeenRight(s, op)
    ensures var (t, outcome) := Next(s, op);
            match op
            case CreateNote(note, _, accepts) =>
              outcome == (if HasRival(s, note) then Conflict else if accepts then Done else Failed)
            case UpdateNote(note, _, accepts) =>
              outcome == (if HasRival(s, note) then Conflict else if note.id !in s.notes then NotFound else if accepts then Done else Failed)
            case DeleteNote(id, accepts) =>
              && outcome == (if id !in s.notes then NotFound else if accepts then Done else Failed)
              && t.notebooks == s.notebooks && (t.index.Some? <==> s.index.Some?)
              && t.notes == if outcome.Done? then s.notes[id := s.notes[id].(deleted := true)] else s.notes
            case CreateNotebook(notebook, _, accepts) =>
              outcome == (if NotebookHasRival(s, notebook) then Conflict else if accepts then Done else Failed)
            case UpdateNotebook(notebook, _, accepts) =>
              outcome == (if NotebookHasRival(s, notebook) then Conflict else if notebook.id !in s.notebooks then NotFound
                          else if accepts then Done else Failed)
            case DeleteNotebook(id, accepts) =>
              && outcome == (if id !in s.notebooks then NotFound else if accepts then Done else Failed)
              && t.notes == s.notes && (t.index.Some? <==> s.index.Some?)
              && t.notebooks == if outcome.Done? then s.notebooks[id := s.notebooks[id].(deleted := true)] else s.notebooks
            case ApplyNote(note) => t.notes == s.notes[note.id := note] && t.notebooks == s.notebooks
            case ApplyNotebook(notebook) => t.notebooks == s.notebooks[notebook.id := notebook] && t.notes == s.notes
  {
    match op
    case CreateNote(note, seen, accepts) => WriteNoteMeaning(s, note, seen, accepts, false);
    case UpdateNote(note, seen, accepts) => WriteNoteMeaning(s, note, seen, accepts, true);
    case CreateNotebook(notebook, seen, accepts) => WriteNotebookMeaning(s, notebook, seen, accepts, false);
    case UpdateNotebook(notebook, seen, accepts) => WriteNotebookMeaning(s, notebook, seen, accepts, true);
    case _ =>
  }

  predicate NotesApart(notes: map<NoteId, Note>) {
    forall i, j :: i in notes && j in notes ==> !Clash(notes[i], notes[j])
  }

  predicate NotebooksApart(notebooks: map<NotebookId, Notebook>) {
    forall i, j :: i in notebooks && j in notebooks && i != j && NotebookIndexed(notebooks[i]) && NotebookIndexed(notebooks[j])
      ==> notebooks[i].alias != notebooks[j].alias
  }

  lemma PutNoteKeepsApart(notes: map<NoteId, Note>, n: Note)
    requires NotesApart(notes) && forall id <- notes :: id != n.id ==> !Clash(notes[id], n)
    ensures NotesApart(notes[n.id := n])
  {
    forall id <- notes | id != n.id ensures !Clash(n, notes[id]) {
      assert !Clash(notes[id], n);
    }
  }

  lemma PutNotebookKeepsApart(notebooks: map<NotebookId, Notebook>, b: Notebook)
    requires NotebooksApart(notebooks)
    requires NotebookIndexed(b) ==> forall id <- notebooks :: id != b.id && NotebookIndexed(notebooks[id]) ==> notebooks[id].alias != b.alias
    ensures NotebooksApart(notebooks[b.id := b])
  {
  }

  lemma WriteNoteKeepsConflictFree(s: Store, note: Note, seen: Listing, accepts: bool, mustExist: bool)
    requires Inv(s) && Lists(s, seen.notes, seen.notebooks) && ConflictFree(s)
    ensures ConflictFree(WriteNote(s, note, seen, accepts, mustExist).0)
  {
    var n := Prepared(note);
    if WriteNote(s, note, seen, accepts, mustExist).1.Done? {
      forall id <- s.notes | id != n.id ensures !Clash(s.notes[id], n) {
        if Indexed(n) {
          CurrentIndexIsIndex(s, seen);
          NoteAliasTakenIff(s, CurrentIndex(s, seen), n);
        }
      }
      PutNoteKeepsApart(s.notes, n);
    }
  }

  lemma WriteNotebookKeepsConflictFree(s: Store, notebook: Notebook, seen: Listing, accepts: bool, mustExist: bool)
    requires Inv(s) && Lists(s, seen.notes, seen.notebooks) && ConflictFree(s)
    ensures ConflictFree(WriteNotebook(s, notebook, seen, accepts, mustExist).0)
  {
    if WriteNotebook(s, notebook, seen, accepts, mustExist).1.Done? {
      if NotebookIndexed(notebook) {
        CurrentIndexIsIndex(s, seen);
        NotebookAliasTakenIff(s, CurrentIndex(s, seen), notebook);
      }
      PutNotebookKeepsApart(s.notebooks, notebook);
    }
  }

  lemma {:induction false} LocalRunKeepsConflictFree(s: Store, ops: seq<Op>)
    requires Inv(s) && ConflictFree(s) && Legal(s, ops) && forall op <- ops :: Local(op)
    ensures ConflictFree(Run(s, ops))
  {
    if ops != [] {
      var k := |ops| - 1;
      assert ops[k] in ops;
      LocalRunKeepsConflictFree(s, ops[..k]);
      RunKeepsInv(s, ops[..k]);
      var t := Run(s, ops[..k]);
      match ops[k]
      case CreateNote(note, seen, accepts) => WriteNoteKeepsConflictFree(t, note, seen, accepts, false);
      case UpdateNote(note, seen, accepts) => WriteNoteKeepsConflictFree(t, note, seen, accepts, true);
      case CreateNotebook(notebook, seen, accepts) => WriteNotebookKeepsConflictFree(t, notebook, seen, accepts, false);
      case UpdateNotebook(notebook, seen, accepts) => WriteNotebookKeepsConflictFree(t, notebook, seen, accepts, true);
      case _ =>
    }
  }

  // ---- The conflict listing ----

  datatype Group = Group(alias: Alias, notebook: NotebookId)

  function GroupOf(note: Note): Option<Group> {
    if note.notebook != INBOX && note.alias.Some? then Some(Group(note.alias.value, note.notebook)) else None
  }

  // The notes of a group, in listing order.
  function Members(notes: seq<Note>, g: Group): seq<Note> {
    if notes == [] then []
    else Members(notes[..|notes| - 1], g) + if GroupOf(notes[|notes| - 1]) == Some(g) then [notes[|notes| - 1]] else []
  }

  // A stable sort by id.
  function Inserted(note: Note, sorted: seq<Note>): seq<Note> {
    if sorted == [] || sorted[|sorted| - 1].id <= note.id then sorted + [note]
    else Inserted(note, sorted[..|sorted| - 1]) + [sorted[|sorted| - 1]]
  }

  function ById(notes: seq<Note>): seq<Note> {
    if notes == [] then [] else Inserted(notes[|notes| - 1], ById(notes[..|notes| - 1]))
  }

  predicate Ascending(notes: seq<Note>) {
    forall i, j :: 0 <= i < j < |notes| ==> notes[i].id <= notes[j].id
  }

  predicate NoneAbove(notes: seq<Note>, last: Note) {
    forall x <- notes :: x.id <= last.id
  }

  lemma AscendingAppend(notes: seq<Note>, last: Note)
    requires Ascending(notes) && NoneAbove(notes, last)
    ensures Ascending(notes + [last])
  {
  }

  lemma AscendingFront(notes: seq<Note>)
    requires Ascending(notes) && notes != []
    ensures Ascending(notes[..|notes| - 1]) && NoneAbove(notes, notes[|notes| - 1])
  {
  }

  lemma {:induction false} InsertedMembers(note: Note, sorted: seq<Note>)
    ensures multiset(Inserted(note, sorted)) == multiset(sorted) + multiset{note}
  {
    if sorted != [] && sorted[|sorted| - 1].id > note.id {
      InsertedMembers(note, sorted[..|sorted| - 1]);
      assert sorted == sorted[..|sorted| - 1] + [sorted[|sorted| - 1]];
    }
  }

  lemma {:induction false} InsertedBelow(note: Note, sorted: seq<Note>, last: Note)
    requires NoneAbove(sorted, last) && note.id <= last.id
    ensures NoneAbove(Inserted(note, sorted), last)
  {
    if sorted != [] && sorted[|sorted| - 1].id > note.id {
      InsertedBelow(note, sorted[..|sorted| - 1], last);
      assert sorted[|sorted| - 1] in sorted;
    }
  }

  lemma {:induction false} InsertedAscending(note: Note, sorted: seq<Note>)
    requires Ascending(sorted)
    ensures Ascending(Inserted(note, sorted))
  {
    if sorted != [] {
      AscendingFront(sorted);
    }
    if sorted == [] || sorted[|sorted| - 1].id <= note.id {
      AscendingAppend(sorted, note);
    } else {
      var front, last := sorted[..|sorted| - 1], sorted[|sorted| - 1];
      InsertedAscending(note, front);
      InsertedBelow(note, front, last);
      AscendingAppend(Inserted(note, front), last);
    }
  }

  lemma {:induction false} ByIdAscending(notes: seq<Note>)
    ensures Ascending(ById(notes)) && multiset(ById(notes)) == multiset(notes)
  {
    if notes != [] {
      var front, last := notes[..|notes| - 1], notes[|notes| - 1];
      ByIdAscending(front);
      InsertedAscending(last, ById(front));
      InsertedMembers(last, ById(front));
      assert notes == front + [last];
    }
  }

  /** The program's grouping of listed notes: the groups of two or more, each sorted by id. */
  method GroupNoteConflicts(notes: seq<Note>) returns (conflicts: map<Group, seq<Note>>)
    ensures forall g :: g in conflicts <==> |Members(notes, g)| >= 2
    ensures forall g <- conflicts :: Ascending(conflicts[g]) && multiset(conflicts[g]) == multiset(Members(notes, g))
  {
    var groups: map<Group, seq<Note>> := map[];
    for k := 0 to |notes|
      invariant forall g :: (if g in groups then groups[g] else []) == Members(notes[..k], g)
    {
      assert notes[..k + 1][..k] == notes[..k];
      var note := notes[k];
      if note.notebook != INBOX && note.alias.Some? {
        var g := Group(note.alias.value, note.notebook);
        groups := groups[g := (if g in groups then groups[g] else []) + [note]];
      }
    }
    assert notes[..|notes|] == notes;
    forall g ensures Ascending(ById(Members(notes, g))) && multiset(ById(Members(notes, g))) == multiset(Members(notes, g)) {
      ByIdAscending(Members(notes, g));
    }
    conflicts := map g | g in groups && |groups[g]| >= 2 :: ById(groups[g]);
  }

  predicate DistinctIds(notes: seq<Note>) {
    forall i, j :: 0 <= i < j < |notes| ==> notes[i].id != notes[j].id
  }

  lemma {:induction false} MembersMembers(notes: seq<Note>, g: Group)
    ensures forall n <- Members(notes, g) :: n in notes && GroupOf(n) == Some(g)
  {
    if notes != [] {
      MembersMembers(notes[..|notes| - 1], g);
      assert notes == notes[..|notes| - 1] + [notes[|notes| - 1]];
    }
  }

  /** The members are the listed notes of the group, each as often as it is listed. */
  lemma {:induction false} MembersComplete(notes: seq<Note>, g: Group)
    ensures forall n :: multiset(Members(notes, g))[n] ==
                        if n.notebook == g.notebook && n.alias == Some(g.alias) && n.notebook != INBOX then multiset(notes)[n] else 0
  {
    if notes != [] {
      var front, last := notes[..|notes| - 1], notes[|notes| - 1];
      MembersComplete(front, g);
      assert notes == front + [last];
    }
  }

  lemma {:induction false} MembersDistinct(notes: seq<Note>, g: Group)
    requires DistinctIds(notes)
    ensures DistinctIds(Members(notes, g))
  {
    if notes != [] {
      var front, last := notes[..|notes| - 1], notes[|notes| - 1];
      MembersDistinct(front, g);
      MembersMembers(front, g);
      var m := Members(front, g);
      forall i | 0 <= i < |m| ensures m[i].id != last.id {
        assert m[i] in m;
        assert m[i] in front;
      }
    }
  }

  lemma TwoMembersClash(notes: seq<Note>, g: Group)
    requires |Members(notes, g)| >= 2 && forall n <- notes :: !n.deleted
    requires DistinctIds(notes)
    ensures exists m, n :: m in notes && n in notes && Clash(m, n)
  {
    MembersMembers(notes, g);
    MembersDistinct(notes, g);
    var members := Members(notes, g);
    assert members[0] in members && members[1] in members;
    assert Clash(members[0], members[1]);
  }

  /** The listing shows a group exactly if two of the listed live notes clash in it. */
  lemma GroupListedIff(notes: seq<Note>, g: Group)
    requires DistinctIds(notes) && forall n <- notes :: !n.deleted
    ensures |Members(notes, g)| >= 2 <==> exists m, n :: m in notes && n in notes && Clash(m, n) && GroupOf(m) == Some(g)
  {
    MembersMembers(notes, g);
    MembersComplete(notes, g);
    if |Members(notes, g)| >= 2 {
      MembersDistinct(notes, g);
      var members := Members(notes, g);
      assert members[0] in members && members[1] in members;
      assert Clash(members[0], members[1]);
    }
    if m, n :| m in notes && n in notes && Clash(m, n) && GroupOf(m) == Some(g) {
      ListedOnce(notes, m);
      ListedOnce(notes, n);
      TwoListed(Members(notes, g), m, n);
    }
  }

  lemma ListedOnce(notes: seq<Note>, n: Note)
    requires n in notes
    ensures multiset(notes)[n] >= 1
  {
    assert n in multiset(notes);
  }

  lemma TwoListed(members: seq<Note>, m: Note, n: Note)
    requires m != n && multiset(members)[m] >= 1 && multiset(members)[n] >= 1
    ensures |members| >= 2
  {
    assert m in multiset(members) && n in multiset(members);
    var i :| 0 <= i < |members| && members[i] == m;
    var j :| 0 <= j < |members| && members[j] == n;
  }

  /** From a store without conflicts, no sequence of local operations makes the conflict listing show a group. */
  lemma NoConflictsListed(s: Store, ops: seq<Op>, notes: seq<Note>, g: Group)
    requires Inv(s) && ConflictFree(s) && Legal(s, ops) && forall op <- ops :: Local(op)
    requires forall n <- notes :: n.id in Run(s, ops).notes && Run(s, ops).notes[n.id] == n && !n.deleted
    requires DistinctIds(notes)
    ensures |Members(notes, g)| < 2
  {
    LocalRunKeepsConflictFree(s, ops);
    if |Members(notes, g)| >= 2 {
      TwoMembersClash(notes, g);
    }
  }

  // ---- What the order of index updates is needed for ----

  function EntryOf(note: Note): Option<Placed> {
    if Indexed(note) then Some(Placed(note.alias.value, note.notebook)) else None
  }

  /**
   Two updates of one note whose index updates come in the opposite order of their store writes leave
   the right index exactly when both versions have the same entry. The program orders the two only
   when both carry an alias: an update without one takes no lock.
   */
  lemma OppositeOrderIff(s: Store, x: Index, first: Note, second: Note)
    requires WellKeyed(s) && IsIndexOf(x, s) && first.id == second.id
    ensures IsIndexOf(NoteUpserted(NoteUpserted(x, second), first), s.(notes := s.notes[first.id := first][second.id := second]))
            <==> EntryOf(first) == EntryOf(second)
  {
    var notes := s.notes[first.id := first][second.id := second];
    var z := NoteUpserted(NoteUpserted(x, second), first);
    OppositeUpserts(x, first, second);
    UpsertedEntries(NoteEntries(s.notes), second, first, z.aliasedNotes, NoteEntries(notes));
  }

  function EntryIn(entries: map<NoteId, Placed>, id: NoteId): Option<Placed> {
    if id in entries then Some(entries[id]) else None
  }

  lemma OppositeUpserts(x: Index, first: Note, second: Note)
    requires Agree(x) && first.id == second.id
    ensures var z := NoteUpserted(NoteUpserted(x, second), first);
            && Agree(z) && z.aliasedNotebooks == x.aliasedNotebooks
            && z.aliasedNotes - {first.id} == x.aliasedNotes - {first.id}
            && EntryIn(z.aliasedNotes, first.id) == EntryOf(first)
  {
    var y := NoteUpserted(x, second);
    UpsertKeepsNotebooks(x, second);
    UpsertKeepsNotebooks(y, first);
    NoteUpsertedAgrees(x, second);
    NoteUpsertedAgrees(y, first);
  }

  lemma UpsertKeepsNotebooks(x: Index, note: Note)
    ensures NoteUpserted(x, note).notebookAliases == x.notebookAliases
    ensures NoteUpserted(x, note).aliasedNotebooks == x.aliasedNotebooks
    ensures NotebooksAgree(x) ==> NotebooksAgree(NoteUpserted(x, note))
  {
    var y := NoteUpserted(x, note);
    if NotebooksAgree(x) {
      forall a, id ensures Holds(y.notebookAliases, a, id) <==> NotebookSaid(y, a, id) {
        assert Holds(x.notebookAliases, a, id) <==> NotebookSaid(x, a, id);
      }
    }
  }

  // Only the entry of the one note can differ.
  lemma UpsertedEntries(e: map<NoteId, Placed>, second: Note, first: Note, got: map<NoteId, Placed>, want: map<NoteId, Placed>)
    requires first.id == second.id
    requires got - {first.id} == e - {first.id} && want - {first.id} == e - {first.id}
    requires EntryOf(first) == EntryIn(got, first.id) && EntryOf(second) == EntryIn(want, first.id)
    ensures got == want <==> EntryOf(first) == EntryOf(second)
  {
    if EntryOf(first) == EntryOf(second) {
      forall id ensures id in got <==> id in want {
        assert id != first.id ==> (id in got - {first.id} <==> id in want - {first.id});
      }
      forall id <- got ensures got[id] == want[id] {
        assert id != first.id ==> (got - {first.id})[id] == (want - {first.id})[id];
      }
    }
  }

  // ---- The decorated store ----

  /** The store with its cached index, as the program updates them. */
  class LinkingBackend {
    var notes: map<NoteId, Note>
    var notebooks: map<NotebookId, Notebook>
    var index: Option<Index>

    ghost function Value(): Store
      reads this
    {
      Store(notes, notebooks, index)
    }

    constructor ()
      ensures Value() == Store(map[], map[], None)
    {
      notes, notebooks, index := map[], map[], None;
    }

    // Builds the index unless it is there.
    method WithIndex(seen: Listing)
      modifies this`index
      ensures index == Some(CurrentIndex(old(Value()), seen))
    {
      if index.None? {
        var built := new AliasIndex();
        built.FillFrom(seen.notes, seen.notebooks);
        index := Some(Index(built.noteAliases, built.aliasedNotes, built.notebookAliases, built.aliasedNotebooks));
      }
    }

    method StoreNote(note: Note, seen: Listing, accepts: bool, mustExist: bool) returns (outcome: Outcome)
      modifies this
      ensures (Value(), outcome) == WriteNote(old(Value()), note, seen, accepts, mustExist)
    {
      var n := note;
      if n.notebook == INBOX {
        n := n.(alias := None);
      } else if n.alias.Some? || n.linked {
        WithIndex(seen);
        if n.alias.Some? && NoteAliasTaken(index.value, n.alias.value, n.id, n.notebook) {
          return Conflict;
        }
      }
      if mustExist && n.id !in notes {
        return NotFound;
      }
      if !accepts {
        return Failed;
      }
      notes := notes[n.id := n];
      if index.Some? {
        index := Some(NoteUpserted(index.value, n));
      }
      outcome := Done;
    }

    method StoreNotebook(notebook: Notebook, seen: Listing, accepts: bool, mustExist: bool) returns (outcome: Outcome)
      modifies this
      ensures (Value(), outcome) == WriteNotebook(old(Value()), notebook, seen, accepts, mustExist)
    {
      if notebook.alias.Some? {
        WithIndex(seen);
        if NotebookAliasTaken(index.value, notebook.alias.value, notebook.id) {
          return Conflict;
        }
      }
      if mustExist && notebook.id !in notebooks {
        return NotFound;
      }
      if !accepts {
        return Failed;
      }
      notebooks := notebooks[notebook.id := notebook];
      if index.Some? {
        index := Some(NotebookUpserted(index.value, notebook));
      }
      outcome := Done;
    }

    method RemoveNote(id: NoteId, accepts: bool) returns (outcome: Outcome)
      modifies this
      ensures (Value(), outcome) == Next(old(Value()), DeleteNote(id, accepts))
    {
      if id !in notes {
        return NotFound;
      }
      if !accepts {
        return Failed;
      }
      notes := notes[id := notes[id].(deleted := true)];
      if index.Some? {
        index := Some(NoteRemoved(index.value, id));
      }
      outcome := Done;
    }

    method ApplyChange(note: Note)
      modifies this
      ensures Value() == Next(old(Value()), ApplyNote(note)).0
    {
      notes := notes[note.id := note];
      index := None;
    }
  }
}
