/** The cached index of aliases: what one note or notebook does to it, and what it is an index of. */
module AliasIndexes {
  import opened Wrappers

  type NoteId = nat
  type NotebookId = nat
  type Alias = string

  // The Inbox is the notebook with the nil id.
  const INBOX: NotebookId := 0

  // `linked` says whether the note holds links, in its body or added by hand.
  datatype Note = Note(id: NoteId, notebook: NotebookId, alias: Option<Alias>, deleted: bool, linked: bool, body: string)

  datatype Notebook = Notebook(id: NotebookId, alias: Option<Alias>, deleted: bool)

  datatype Ref = Ref(note: NoteId, notebook: NotebookId)

  datatype Placed = Placed(alias: Alias, notebook: NotebookId)

  datatype Index = Index(
    noteAliases: map<Alias, set<Ref>>,
    aliasedNotes: map<NoteId, Placed>,
    notebookAliases: map<Alias, set<NotebookId>>,
    aliasedNotebooks: map<NotebookId, Alias>)

  const EMPTY := Index(map[], map[], map[], map[])

  // ---- Changing a map of sets ----

  function Added<T>(sets: map<Alias, set<T>>, alias: Alias, x: T): map<Alias, set<T>> {
    sets[alias := (if alias in sets then sets[alias] else {}) + {x}]
  }

  function Dropped<T>(sets: map<Alias, set<T>>, alias: Alias, x: T): map<Alias, set<T>> {
    if alias !in sets then sets
    else if sets[alias] - {x} == {} then sets - {alias}
    else sets[alias := sets[alias] - {x}]
  }

  // ---- One note, one notebook ----

  predicate Indexed(note: Note) {
    !note.deleted && note.notebook != INBOX && note.alias.Some?
  }

  function NoteRemoved(x: Index, id: NoteId): Index {
    if id !in x.aliasedNotes then x
    else
      var p := x.aliasedNotes[id];
      x.(aliasedNotes := x.aliasedNotes - {id}, noteAliases := Dropped(x.noteAliases, p.alias, Ref(id, p.notebook)))
  }

  function NoteUpserted(x: Index, note: Note): Index {
    var y := NoteRemoved(x, note.id);
    if !Indexed(note) then y
    else
      y.(noteAliases := Added(y.noteAliases, note.alias.value, Ref(note.id, note.notebook)),
         aliasedNotes := y.aliasedNotes[note.id := Placed(note.alias.value, note.notebook)])
  }

  predicate NotebookIndexed(notebook: Notebook) {
    !notebook.deleted && notebook.alias.Some?
  }

  function NotebookRemoved(x: Index, id: NotebookId): Index {
    if id !in x.aliasedNotebooks then x
    else
      x.(aliasedNotebooks := x.aliasedNotebooks - {id},
         notebookAliases := Dropped(x.notebookAliases, x.aliasedNotebooks[id], id))
  }

  function NotebookUpserted(x: Index, notebook: Notebook): Index {
    var y := NotebookRemoved(x, notebook.id);
    if !NotebookIndexed(notebook) then y
    else
      y.(notebookAliases := Added(y.notebookAliases, notebook.alias.value, notebook.id),
         aliasedNotebooks := y.aliasedNotebooks[notebook.id := notebook.alias.value])
  }

  function WithNotes(x: Index, notes: seq<Note>): Index {
    if notes == [] then x else NoteUpserted(WithNotes(x, notes[..|notes| - 1]), notes[|notes| - 1])
  }

  function WithNotebooks(x: Index, notebooks: seq<Notebook>): Index {
    if notebooks == [] then x else NotebookUpserted(WithNotebooks(x, notebooks[..|notebooks| - 1]), notebooks[|notebooks| - 1])
  }

  function FromSnapshots(notes: seq<Note>, notebooks: seq<Notebook>): Index {
    WithNotebooks(WithNotes(EMPTY, notes), notebooks)
  }

  // ---- The two directions agree ----

  predicate Holds<T>(sets: map<Alias, set<T>>, a: Alias, x: T) {
    a in sets && x in sets[a]
  }

  predicate NoteSaid(x: Index, a: Alias, p: Ref) {
    p.note in x.aliasedNotes && x.aliasedNotes[p.note] == Placed(a, p.notebook)
  }

  predicate NotebookSaid(x: Index, a: Alias, id: NotebookId) {
    id in x.aliasedNotebooks && x.aliasedNotebooks[id] == a
  }

  predicate NoneEmpty<T>(sets: map<Alias, set<T>>) {
    forall a <- sets :: sets[a] != {}
  }

  // The sets by alias hold exactly what the entries by id say, and none is empty.
  ghost predicate NotesAgree(x: Index) {
    && (forall a, p :: Holds(x.noteAliases, a, p) <==> NoteSaid(x, a, p))
    && NoneEmpty(x.noteAliases)
  }

  ghost predicate NotebooksAgree(x: Index) {
    && (forall a, id :: Holds(x.notebookAliases, a, id) <==> NotebookSaid(x, a, id))
    && NoneEmpty(x.notebookAliases)
  }

  ghost predicate Agree(x: Index) {
    NotesAgree(x) && NotebooksAgree(x)
  }

  lemma DroppedHolds<T>(sets: map<Alias, set<T>>, alias: Alias, x: T, a: Alias, y: T)
    ensures Holds(Dropped(sets, alias, x), a, y) <==> Holds(sets, a, y) && !(a == alias && y == x)
    ensures NoneEmpty(sets) ==> NoneEmpty(Dropped(sets, alias, x))
  {
    if alias in sets {
      var rest := sets[alias] - {x};
      assert y in rest <==> y in sets[alias] && y != x;
    }
  }

  lemma AddedHolds<T>(sets: map<Alias, set<T>>, alias: Alias, x: T, a: Alias, y: T)
    ensures Holds(Added(sets, alias, x), a, y) <==> Holds(sets, a, y) || (a == alias && y == x)
    ensures NoneEmpty(sets) ==> NoneEmpty(Added(sets, alias, x))
  {
  }

  lemma NoteRemovedAgrees(x: Index, id: NoteId)
    requires NotesAgree(x)
    ensures NotesAgree(NoteRemoved(x, id))
    ensures NoteRemoved(x, id).aliasedNotes == x.aliasedNotes - {id}
  {
    if id in x.aliasedNotes {
      var q, y := x.aliasedNotes[id], NoteRemoved(x, id);
      var gone := Ref(id, q.notebook);
      forall a, p ensures Holds(y.noteAliases, a, p) <==> NoteSaid(y, a, p) {
        DroppedHolds(x.noteAliases, q.alias, gone, a, p);
        assert Holds(x.noteAliases, a, p) <==> NoteSaid(x, a, p);
      }
      DroppedHolds(x.noteAliases, q.alias, gone, q.alias, gone);
    }
  }

  lemma NoteUpsertedAgrees(x: Index, note: Note)
    requires NotesAgree(x)
    ensures NotesAgree(NoteUpserted(x, note))
    ensures NoteUpserted(x, note).aliasedNotes
            == if Indexed(note) then x.aliasedNotes[note.id := Placed(note.alias.value, note.notebook)] else x.aliasedNotes - {note.id}
  {
    NoteRemovedAgrees(x, note.id);
    var y, z := NoteRemoved(x, note.id), NoteUpserted(x, note);
    if Indexed(note) {
      var alias, added := note.alias.value, Ref(note.id, note.notebook);
      forall a, p ensures Holds(z.noteAliases, a, p) <==> NoteSaid(z, a, p) {
        AddedHolds(y.noteAliases, alias, added, a, p);
        assert Holds(y.noteAliases, a, p) <==> NoteSaid(y, a, p);
      }
      AddedHolds(y.noteAliases, alias, added, alias, added);
    }
  }

  lemma NotebookRemovedAgrees(x: Index, id: NotebookId)
    requires NotebooksAgree(x)
    ensures NotebooksAgree(NotebookRemoved(x, id))
    ensures NotebookRemoved(x, id).aliasedNotebooks == x.aliasedNotebooks - {id}
  {
    if id in x.aliasedNotebooks {
      var q, y := x.aliasedNotebooks[id], NotebookRemoved(x, id);
      forall a, other ensures Holds(y.notebookAliases, a, other) <==> NotebookSaid(y, a, other) {
        DroppedHolds(x.notebookAliases, q, id, a, other);
        assert Holds(x.notebookAliases, a, other) <==> NotebookSaid(x, a, other);
      }
      DroppedHolds(x.notebookAliases, q, id, q, id);
    }
  }

  lemma NotebookUpsertedAgrees(x: Index, notebook: Notebook)
    requires NotebooksAgree(x)
    ensures NotebooksAgree(NotebookUpserted(x, notebook))
    ensures NotebookUpserted(x, notebook).aliasedNotebooks
            == if NotebookIndexed(notebook) then x.aliasedNotebooks[notebook.id := notebook.alias.value]
               else x.aliasedNotebooks - {notebook.id}
  {
    NotebookRemovedAgrees(x, notebook.id);
    var y, z := NotebookRemoved(x, notebook.id), NotebookUpserted(x, notebook);
    if NotebookIndexed(notebook) {
      var alias := notebook.alias.value;
      forall a, other ensures Holds(z.notebookAliases, a, other) <==> NotebookSaid(z, a, other) {
        AddedHolds(y.notebookAliases, alias, notebook.id, a, other);
        assert Holds(y.notebookAliases, a, other) <==> NotebookSaid(y, a, other);
      }
      AddedHolds(y.notebookAliases, alias, notebook.id, alias, notebook.id);
    }
  }

  lemma SameHolds<T(!new)>(s: map<Alias, set<T>>, t: map<Alias, set<T>>)
    requires NoneEmpty(s) && NoneEmpty(t) && forall a, x :: Holds(s, a, x) <==> Holds(t, a, x)
    ensures s == t
  {
    forall a <- s ensures a in t {
      var x :| x in s[a];
      assert Holds(s, a, x);
    }
    forall a <- t ensures a in s {
      var x :| x in t[a];
      assert Holds(t, a, x);
    }
    forall a <- s ensures s[a] == t[a] {
      forall x ensures x in s[a] <==> x in t[a] {
        assert Holds(s, a, x) <==> Holds(t, a, x);
      }
    }
  }

  // The entries by id determine the whole index.
  lemma AgreeDetermines(x: Index, y: Index)
    requires Agree(x) && Agree(y) && x.aliasedNotes == y.aliasedNotes && x.aliasedNotebooks == y.aliasedNotebooks
    ensures x == y
  {
    forall a, p ensures Holds(x.noteAliases, a, p) <==> Holds(y.noteAliases, a, p) {
      assert NoteSaid(x, a, p) == NoteSaid(y, a, p);
    }
    forall a, id ensures Holds(x.notebookAliases, a, id) <==> Holds(y.notebookAliases, a, id) {
      assert NotebookSaid(x, a, id) == NotebookSaid(y, a, id);
    }
    SameHolds(x.noteAliases, y.noteAliases);
    SameHolds(x.notebookAliases, y.notebookAliases);
  }

  // ---- The loops and updates of the program ----

  /** The index, updated in place. */
  class AliasIndex {
    var noteAliases: map<Alias, set<Ref>>
    var aliasedNotes: map<NoteId, Placed>
    var notebookAliases: map<Alias, set<NotebookId>>
    var aliasedNotebooks: map<NotebookId, Alias>

    ghost function Value(): Index
      reads this
    {
      Index(noteAliases, aliasedNotes, notebookAliases, aliasedNotebooks)
    }

    constructor ()
      ensures Value() == EMPTY
    {
      noteAliases, aliasedNotes, notebookAliases, aliasedNotebooks := map[], map[], map[], map[];
    }

    method RemoveNote(id: NoteId)
      modifies this
      ensures Value() == NoteRemoved(old(Value()), id)
    {
      if id in aliasedNotes {
        var p := aliasedNotes[id];
        aliasedNotes := aliasedNotes - {id};
        if p.alias in noteAliases {
          var rest := noteAliases[p.alias] - {Ref(id, p.notebook)};
          noteAliases := if rest == {} then noteAliases - {p.alias} else noteAliases[p.alias := rest];
        }
      }
    }

    method UpsertNote(note: Note)
      modifies this
      ensures Value() == NoteUpserted(old(Value()), note)
    {
      RemoveNote(note.id);
      if note.deleted || note.notebook == INBOX {
        return;
      }
      if note.alias.Some? {
        var alias := note.alias.value;
        var refs := if alias in noteAliases then noteAliases[alias] else {};
        noteAliases := noteAliases[alias := refs + {Ref(note.id, note.notebook)}];
        aliasedNotes := aliasedNotes[note.id := Placed(alias, note.notebook)];
      }
    }

    method RemoveNotebook(id: NotebookId)
      modifies this
      ensures Value() == NotebookRemoved(old(Value()), id)
    {
      if id in aliasedNotebooks {
        var alias := aliasedNotebooks[id];
        aliasedNotebooks := aliasedNotebooks - {id};
        if alias in notebookAliases {
          var rest := notebookAliases[alias] - {id};
          notebookAliases := if rest == {} then notebookAliases - {alias} else notebookAliases[alias := rest];
        }
      }
    }

    method UpsertNotebook(notebook: Notebook)
      modifies this
      ensures Value() == NotebookUpserted(old(Value()), notebook)
    {
      RemoveNotebook(notebook.id);
      if notebook.deleted {
        return;
      }
      if notebook.alias.Some? {
        var alias := notebook.alias.value;
        var ids := if alias in notebookAliases then notebookAliases[alias] else {};
        notebookAliases := notebookAliases[alias := ids + {notebook.id}];
        aliasedNotebooks := aliasedNotebooks[notebook.id := alias];
      }
    }

    method FillFrom(notes: seq<Note>, notebooks: seq<Notebook>)
      requires Value() == EMPTY
      modifies this
      ensures Value() == FromSnapshots(notes, notebooks)
    {
      for k := 0 to |notes|
        invariant Value() == WithNotes(EMPTY, notes[..k])
      {
        UpsertNote(notes[k]);
        assert notes[..k + 1][..k] == notes[..k];
      }
      assert notes[..|notes|] == notes;
      ghost var noted := WithNotes(EMPTY, notes);
      for k := 0 to |notebooks|
        invariant Value() == WithNotebooks(noted, notebooks[..k])
      {
        UpsertNotebook(notebooks[k]);
        assert notebooks[..k + 1][..k] == notebooks[..k];
      }
      assert notebooks[..|notebooks|] == notebooks;
    }
  }
}
