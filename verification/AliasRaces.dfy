/**
 Updates of notes that overlap: each writes the store and then the cached index, and an update whose
 note carries an alias holds the alias lock around both. An update without an alias takes no lock.
 */
module AliasRaces {
  import opened Wrappers
  import opened AliasIndexes
  import opened Linking

  type Writer = nat

  // An update between its two writes.
  datatype Update = Update(note: Note, locked: bool)

  datatype State = State(notes: map<NoteId, Note>, index: Index, pending: map<Writer, Update>)

  datatype Step =
    | StoreNote(w: Writer, note: Note)
    | IndexNote(w: Writer)

  predicate LockFree(s: State) {
    forall w <- s.pending :: !s.pending[w].locked
  }

  predicate Enabled(s: State, step: Step) {
    match step
    case StoreNote(w, note) => w !in s.pending && note.id in s.notes && (note.alias.Some? ==> LockFree(s))
    case IndexNote(w) => w in s.pending
  }

  function Next(s: State, step: Step): State
    requires Enabled(s, step)
  {
    match step
    case StoreNote(w, note) =>
      s.(notes := s.notes[note.id := Prepared(note)], pending := s.pending[w := Update(Prepared(note), note.alias.Some?)])
    case IndexNote(w) =>
      s.(index := NoteUpserted(s.index, s.pending[w].note), pending := s.pending - {w})
  }

  predicate Legal(s: State, steps: seq<Step>)
    decreases |steps|, 0
  {
    steps == [] || (
      var k := |steps| - 1;
      Legal(s, steps[..k]) && Enabled(Run(s, steps[..k]), steps[k]))
  }

  function Run(s: State, steps: seq<Step>): State
    requires Legal(s, steps)
    decreases |steps|, 1
  {
    if steps == [] then s else Next(Run(s, steps[..|steps| - 1]), steps[|steps| - 1])
  }

  // The index has the note's entry as the store has the note.
  predicate RightAt(s: State, id: NoteId) {
    EntryIn(s.index.aliasedNotes, id) == if id in s.notes then EntryOf(s.notes[id]) else None
  }

  predicate UnderWay(s: State, id: NoteId) {
    exists w <- s.pending :: s.pending[w].note.id == id
  }

  ghost predicate Inv(s: State) {
    && NotesAgree(s.index)
    && (forall id <- s.notes :: s.notes[id].id == id)
    && (forall w <- s.pending :: s.pending[w].note.id in s.notes)
  }

  lemma StepKeepsInv(s: State, step: Step)
    requires Inv(s) && Enabled(s, step)
    ensures Inv(Next(s, step))
  {
    if step.IndexNote? {
      NoteUpsertedAgrees(s.index, s.pending[step.w].note);
    }
  }

  /** The second write of an update leaves the note's entry right exactly if the note stored by then has the same entry, and leaves all other entries alone. */
  lemma IndexNoteIff(s: State, w: Writer)
    requires Inv(s) && w in s.pending
    ensures var id := s.pending[w].note.id;
            && (RightAt(Next(s, IndexNote(w)), id) <==> EntryOf(s.pending[w].note) == EntryOf(s.notes[id]))
            && forall other: NoteId :: other != id ==> (RightAt(Next(s, IndexNote(w)), other) <==> RightAt(s, other))
  {
    NoteUpsertedAgrees(s.index, s.pending[w].note);
  }

  // Whatever is under way is locked, so alone, and is of the note as it is stored; all other entries are right.
  ghost predicate LockedInv(s: State) {
    && Inv(s)
    && (forall w <- s.pending :: s.pending[w].locked && s.pending[w].note == s.notes[s.pending[w].note.id])
    && (forall v <- s.pending, w <- s.pending :: v == w)
    && forall id: NoteId :: !UnderWay(s, id) ==> RightAt(s, id)
  }

  predicate CarriesAlias(step: Step) {
    step.StoreNote? ==> step.note.alias.Some?
  }

  lemma LockedStep(s: State, step: Step)
    requires LockedInv(s) && Enabled(s, step) && CarriesAlias(step)
    ensures LockedInv(Next(s, step))
  {
    StepKeepsInv(s, step);
    var t := Next(s, step);
    match step
    case StoreNote(w, note) =>
      assert s.pending == map[];
      forall id: NoteId | !UnderWay(t, id) ensures RightAt(t, id) {
        assert w in t.pending && id != note.id;
        assert RightAt(s, id);
      }
    case IndexNote(w) =>
      IndexNoteIff(s, w);
      assert t.pending == map[];
      forall id: NoteId ensures RightAt(t, id) {
        if id != s.pending[w].note.id {
          assert !UnderWay(s, id);
        }
      }
  }

  /** As long as every update carries an alias, the lock keeps the index right of every note that is not just being updated. */
  lemma {:induction false} LockedUpdatesKeepIndex(s: State, steps: seq<Step>)
    requires LockedInv(s) && Legal(s, steps) && forall step <- steps :: CarriesAlias(step)
    ensures LockedInv(Run(s, steps))
  {
    if steps != [] {
      var k := |steps| - 1;
      assert steps[k] in steps;
      LockedUpdatesKeepIndex(s, steps[..k]);
      LockedStep(Run(s, steps[..k]), steps[k]);
    }
  }

  const PLAIN := Note(1, 7, None, false, false, "")
  const NAMED := Note(1, 7, Some("a"), false, false, "")

  /** With an update that carries none the index can end up wrong for good: it overtakes one that does, and its alias stays indexed. */
  lemma LocklessUpdateSpoilsIndex(s: State) returns (steps: seq<Step>)
    requires s == State(map[1 := PLAIN], EMPTY, map[])
    ensures LockedInv(s) && Legal(s, steps) && Run(s, steps).pending == map[]
    ensures 1 in Run(s, steps).notes && Run(s, steps).notes[1] == PLAIN
    ensures 1 in Run(s, steps).index.aliasedNotes && !RightAt(Run(s, steps), 1)
  {
    var store1, store2, index2, index1 := StoreNote(1, NAMED), StoreNote(2, PLAIN), IndexNote(2), IndexNote(1);
    var a := Next(s, store1);
    var b := Next(a, store2);
    var c := Next(b, index2);
    var d := Next(c, index1);
    steps := [store1, store2, index2, index1];
    assert steps[..3] == [store1, store2, index2] && steps[..3][..2] == [store1, store2];
    assert steps[..3][..2][..1] == [store1] && [store1][..0] == [];
    assert Legal(s, []) && Run(s, []) == s;
    assert Legal(s, [store1]) && Run(s, [store1]) == a;
    assert Legal(s, [store1, store2]) && Run(s, [store1, store2]) == b;
    assert Legal(s, [store1, store2, index2]) && Run(s, [store1, store2, index2]) == c;
    assert Run(s, steps) == d;
    NoteUpsertedAgrees(b.index, PLAIN);
    NoteUpsertedAgrees(c.index, NAMED);
  }
}
