/** Runs of the journal in which an entry is skipped for a while, and two in which a line is handed over twice; and a compaction that drops an entry. */
module JournalRuns {
  import opened Wrappers
  import opened Journal
  import opened JournalProtocol

  predicate Reached(steps: seq<Step>, s: State) {
    Legal(steps) && Run(steps) == s
  }

  lemma Then(steps: seq<Step>, s: State, step: Step) returns (more: seq<Step>)
    requires Reached(steps, s) && Enabled(s, step)
    ensures Reached(more, Next(s, step))
  {
    more := steps + [step];
    assert more[..|steps|] == steps;
  }

  const A := Record(Item(1, 1), 100)
  const B := Record(Item(2, 2), 10)

  function OneAppended(): State {
    State(map[1 := 1], 1, {}, [[], [A]], None, 0, Cursor(0, 0), Idle, {}, map[])
  }

  lemma OneAppendedReached() returns (steps: seq<Step>)
    ensures Reached(steps, OneAppended())
  {
    steps := Then([], Init(), Edit(1));
    var s := Next(Init(), Edit(1));
    assert s == State(map[1 := 1], 1, {A.item}, [[]], None, 0, Cursor(0, 0), Idle, {}, map[]);
    steps := Then(steps, s, Append(A.item, 100));
    var t := Next(s, Append(A.item, 100));
    assert Current(s) == [] && [] + [A] == [A];
    assert t.versions == [[], [A]] && t.owed == {};
  }

  // The one line was handed over, `times` times, and the cursor is where the last read left it.
  function OneRead(cursor: Cursor, times: nat): State {
    State(map[1 := 1], 1, {}, [[], [A]], None, 1, cursor, Idle, {A.item}, map[LineId(0, 0) := times])
  }

  lemma ReadingA()
    ensures Position([A], 0) == 0 && Position([A], 1) == 100
    ensures RecordsFrom([A], 0, 1) == [A.item] && LinesRead([A], 0) == {LineId(0, 0)}
  {
    assert [A][0] == A;
    assert RecordsFrom([A], 0, 0) == [];
  }

  function OneCopied(): State {
    OneAppended().(replica := 1, phase := HeaderRead(0, 0, 1))
  }

  lemma OneCopiedReached() returns (steps: seq<Step>)
    ensures Reached(steps, OneCopied())
  {
    steps := OneAppendedReached();
    steps := Then(steps, OneAppended(), Replicate(1));
    steps := Then(steps, OneAppended().(replica := 1), ReadHeader);
  }

  lemma ReadingOneCopied(saved: bool)
    ensures Next(OneCopied(), ReadLines(saved)) == OneRead(if saved then Cursor(0, 100) else Cursor(0, 0), 1)
  {
    ReadingA();
    var t := Next(OneCopied(), ReadLines(saved));
    assert A.item in [A.item];
    assert t.delivered == {A.item};
    assert t.handed == map[LineId(0, 0) := 1];
  }

  lemma OneReadReached(saved: bool) returns (steps: seq<Step>)
    ensures Reached(steps, OneRead(if saved then Cursor(0, 100) else Cursor(0, 0), 1))
  {
    steps := OneCopiedReached();
    steps := Then(steps, OneCopied(), ReadLines(saved));
    ReadingOneCopied(saved);
  }

  /** A read whose cursor could not be saved hands its lines over again the next time. */
  lemma UnsavedReadRepeats() returns (steps: seq<Step>)
    ensures Legal(steps) && LineId(0, 0) in Run(steps).handed && Run(steps).handed[LineId(0, 0)] == 2
  {
    steps := OneReadReached(false);
    var s := OneRead(Cursor(0, 0), 1);
    steps := Then(steps, s, ReadHeader);
    s := s.(phase := HeaderRead(0, 0, 1));
    steps := Then(steps, s, ReadLines(true));
    ReadingA();
    assert LineId(0, 0) in LinesRead([A], 0);
  }

  function TwoAppended(): State {
    OneRead(Cursor(0, 100), 1).(sidecars := map[1 := 1, 2 := 2], clock := 2, versions := [[], [A], [A, B]])
  }

  lemma TwoAppendedReached() returns (steps: seq<Step>)
    ensures Reached(steps, TwoAppended())
  {
    steps := OneReadReached(true);
    var s := Next(OneRead(Cursor(0, 100), 1), Edit(2));
    steps := Then(steps, OneRead(Cursor(0, 100), 1), Edit(2));
    assert s == OneRead(Cursor(0, 100), 1).(sidecars := map[1 := 1, 2 := 2], clock := 2, owed := {B.item});
    steps := Then(steps, s, Append(B.item, 10));
    var t := Next(s, Append(B.item, 10));
    assert Current(s) == [A] && [A] + [B] == [A, B];
    assert t.versions == [[], [A], [A, B]] && t.owed == {};
  }

  function Entry(x: Entity): Line {
    if x == 1 then A else B
  }

  // The reader has looked at the header of the first file, and now holds the compacted one, with the two entries in this order.
  function CopiedAfterHeader(x: Entity, y: Entity): State {
    TwoAppended().(versions := [[], [A], [A, B], [Header(1, 24), Entry(x), Entry(y)]], replica := 3, phase := HeaderRead(0, 0, 1))
  }

  function Gathered(lines: seq<Line>): State {
    TwoAppended().(phase := HeaderRead(0, 0, 1), compacting := Some(Gathering(map[1 := 1, 2 := 2], lines)))
  }

  lemma BegunReached() returns (steps: seq<Step>)
    ensures Reached(steps, Gathered([]))
  {
    steps := TwoAppendedReached();
    steps := Then(steps, TwoAppended(), ReadHeader);
    steps := Then(steps, TwoAppended().(phase := HeaderRead(0, 0, 1)), BeginCompact);
  }

  lemma GatheredReached(x: Entity, y: Entity) returns (steps: seq<Step>)
    requires {x, y} == {1, 2}
    ensures Reached(steps, Gathered([Entry(x), Entry(y)]))
  {
    steps := BegunReached();
    steps := Then(steps, Gathered([]), Gather(x, Entry(x).len));
    assert [] + [Entry(x)] == [Entry(x)];
    steps := Then(steps, Gathered([Entry(x)]), Gather(y, Entry(y).len));
    assert [Entry(x)] + [Entry(y)] == [Entry(x), Entry(y)];
  }

  lemma CopiedAfterHeaderReached(x: Entity, y: Entity) returns (steps: seq<Step>)
    requires {x, y} == {1, 2}
    ensures Reached(steps, CopiedAfterHeader(x, y))
  {
    steps := GatheredReached(x, y);
    var lines := [Entry(x), Entry(y)];
    var g := Gathering(map[1 := 1, 2 := 2], lines);
    var s := Gathered(lines);
    assert lines[0].item.entity == x && lines[1].item.entity == y;
    assert Complete(g);
    steps := Then(steps, s, FinishCompact);
    assert Current(s) == [A, B];
    assert CompactedFile(Current(s), lines) == [Header(1, 24), Entry(x), Entry(y)];
    var t := Next(s, FinishCompact);
    assert t.versions == CopiedAfterHeader(x, y).versions;
    steps := Then(steps, t, Replicate(3));
  }

  lemma Places(x: Entity, y: Entity)
    requires {x, y} == {1, 2}
    ensures var file := [Header(1, 24), Entry(x), Entry(y)];
            Position(file, 0) == 0 && Position(file, 1) == 24 && Position(file, 2) == 24 + Entry(x).len && Position(file, 3) == 134
  {
  }

  /** A read whose copy is compacted behind the header can skip an entry, for a while. */
  lemma StaleReadSkips() returns (steps: seq<Step>)
    ensures Legal(steps) && Enabled(Run(steps), ReadLines(true)) && Stale(Run(steps))
    ensures !NothingLost(Next(Run(steps), ReadLines(true)))
  {
    steps := CopiedAfterHeaderReached(2, 1);
    var s, t := Run(steps), Next(Run(steps), ReadLines(true));
    var file := [Header(1, 24), B, A];
    assert s.versions[3] == file;
    Places(2, 1);
    assert RecordsFrom(file, 100, 0) == [];
    assert RecordsFrom(file, 100, 1) == [];
    assert RecordsFrom(file, 100, 2) == [];
    assert RecordsFrom(file, 100, 3) == [];
    assert t.delivered == {A.item};
    assert B.item in EverAppended(t.versions, 3) by {
      assert t.versions[2][1] == B;
    }
  }

  lemma StaleReadHandsB()
    ensures var t := Next(CopiedAfterHeader(1, 2), ReadLines(true));
            && LineId(1, 2) in t.handed && t.handed[LineId(1, 2)] == 1 && t.cursor == Cursor(0, 134)
            && t.versions == CopiedAfterHeader(1, 2).versions && t.replica == 3 && t.phase == Idle
  {
    var file := [Header(1, 24), A, B];
    assert CopiedAfterHeader(1, 2).versions[3] == file && file[2] == B;
    Places(1, 2);
    assert LineId(1, 2) in LinesRead(file, 100);
  }

  lemma NextReadHandsBAgain(s: State)
    requires Enabled(s, ReadLines(true)) && s.replica == 3 && s.versions[3] == [Header(1, 24), A, B]
    requires s.phase == HeaderRead(1, 24, 3) && s.cursor.epoch == 0
    requires LineId(1, 2) in s.handed && s.handed[LineId(1, 2)] == 1
    ensures LineId(1, 2) in Next(s, ReadLines(true)).handed && Next(s, ReadLines(true)).handed[LineId(1, 2)] == 2
  {
    var file := [Header(1, 24), A, B];
    assert file[2] == B;
    Places(1, 2);
    assert LineId(1, 2) in LinesRead(file, 24);
  }

  /** Or it hands over lines of the new epoch under the old one's cursor, and the next read, starting at the new header, hands them over again. */
  lemma StaleReadRepeats() returns (steps: seq<Step>)
    ensures Legal(steps) && LineId(1, 2) in Run(steps).handed && Run(steps).handed[LineId(1, 2)] == 2
  {
    steps := CopiedAfterHeaderReached(1, 2);
    StaleReadHandsB();
    steps := Then(steps, CopiedAfterHeader(1, 2), ReadLines(true));
    var t := Next(CopiedAfterHeader(1, 2), ReadLines(true));
    steps := Then(steps, t, ReadHeader);
    NextReadHandsBAgain(Next(t, ReadHeader));
    steps := Then(steps, Next(t, ReadHeader), ReadLines(true));
  }

  /** A compaction that finds an association unreadable replaces its entry by one that covers nothing. */
  lemma UnreadableAssociationIsDropped() returns (file: File, found: seq<Sidecar>)
    ensures WellFormed(file) && FoundNoOlder(file, found) && NoneStops(found)
    ensures !AllCovered(ItemsOf(file), ItemsOf(CompactedFile(file, SnapshotOf(found))))
  {
    file, found := [A], [Sidecar(1, true, None, 60)];
    assert file[0] == A && A.item in ItemsOf(file);
    assert forall i <- ItemsOf(file) :: i == A.item;
    assert found[0] in found;
    CompactCoversIff(file, found);
  }
}
