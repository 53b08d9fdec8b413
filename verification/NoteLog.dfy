/**
 The replicated note log: what a device reads out of the per-device logs of one note
 (`Merge`), and how a device shortens its own log (`Compact`).
 */
module NoteLog {
  import opened Wrappers
  import opened VersionVectors

  type Time = int

  // `content` stands for every field of a note that merging copies without looking at it.
  datatype Note = Note(content: string, updatedAt: Time, deletedAt: Option<Time>)

  datatype Op = Upsert(note: Note) | Tombstone(deletedAt: Time)

  datatype Entry = Entry(vv: Vector, timestamp: Time, device: Device, op: Op)

  type Log = seq<Entry>

  // `winnerDevice` is None where the program leaves an empty device name.
  datatype Merged = Merged(
    note: Option<Note>,
    vv: Vector,
    winnerVv: Vector,
    winnerDevice: Option<Device>,
    conflict: bool)

  // The tiebreak order on (timestamp, device).
  predicate Outranks(a: Entry, b: Entry) {
    a.timestamp > b.timestamp || (a.timestamp == b.timestamp && a.device > b.device)
  }

  // ---- Reading: heads, frontier, winner, recovered content ----

  function Heads(logs: seq<Log>): seq<Entry> {
    if logs == [] then []
    else
      var log := logs[|logs| - 1];
      Heads(logs[..|logs| - 1]) + (if log == [] then [] else [log[|log| - 1]])
  }

  function JoinAll(heads: seq<Entry>): Vector {
    if heads == [] then map[] else Join(JoinAll(heads[..|heads| - 1]), heads[|heads| - 1].vv)
  }

  // Some head has seen strictly more.
  predicate Superseded(heads: seq<Entry>, e: Entry) {
    exists g <- heads :: Dominates(g.vv, e.vv) && g.vv != e.vv
  }

  function Frontier(heads: seq<Entry>, candidates: seq<Entry>): seq<Entry> {
    if candidates == [] then []
    else
      var e := candidates[|candidates| - 1];
      Frontier(heads, candidates[..|candidates| - 1]) + (if Superseded(heads, e) then [] else [e])
  }

  // The last of the greatest entries, as Rust's `max_by` picks it.
  function Greatest(entries: seq<Entry>): Entry
    requires entries != []
  {
    var e := entries[|entries| - 1];
    if |entries| == 1 then e
    else
      var m := Greatest(entries[..|entries| - 1]);
      if Outranks(m, e) then m else e
  }

  function Flatten(logs: seq<Log>): seq<Entry> {
    if logs == [] then [] else Flatten(logs[..|logs| - 1]) + logs[|logs| - 1]
  }

  // The last of the upserts with the greatest timestamp.
  function LatestUpsert(entries: seq<Entry>): Option<Entry> {
    if entries == [] then None
    else Later(LatestUpsert(entries[..|entries| - 1]), entries[|entries| - 1])
  }

  function Later(best: Option<Entry>, e: Entry): Option<Entry> {
    if e.op.Upsert? && (best.None? || e.timestamp >= best.value.timestamp) then Some(e) else best
  }

  function VisibleNote(winner: Entry, latest: Option<Entry>): Option<Note> {
    match winner.op
    case Upsert(note) => Some(note)
    case Tombstone(at) =>
      if latest.Some? && latest.value.op.Upsert?
      then Some(latest.value.op.note.(deletedAt := Some(at), updatedAt := at))
      else None
  }

  // The program unwraps the maximum of the frontier; this says that the frontier is there to be unwrapped.
  predicate Mergeable(logs: seq<Log>) {
    Heads(logs) == [] || Frontier(Heads(logs), Heads(logs)) != []
  }

  function Merge(logs: seq<Log>): Merged
    requires Mergeable(logs)
  {
    var heads := Heads(logs);
    if heads == [] then Merged(None, map[], map[], None, false)
    else
      var frontier := Frontier(heads, heads);
      var winner := Greatest(frontier);
      Merged(
        VisibleNote(winner, LatestUpsert(Flatten(logs))),
        JoinAll(heads), winner.vv, Some(winner.device), |frontier| > 1)
  }

  /** The program's loops, computing exactly `Merge`. */
  method MergeByLoops(logs: seq<Log>) returns (merged: Merged)
    requires Mergeable(logs)
    ensures merged == Merge(logs)
  {
    var heads := HeadsByLoop(logs);
    if heads == [] {
      return Merged(None, map[], map[], None, false);
    }
    var vv, frontier := FrontierByLoop(heads);
    var winner := GreatestByLoop(frontier);
    var latest := LatestUpsertByLoop(logs);
    return Merged(VisibleNote(winner, latest), vv, winner.vv, Some(winner.device), |frontier| > 1);
  }

  method HeadsByLoop(logs: seq<Log>) returns (heads: seq<Entry>)
    ensures heads == Heads(logs)
  {
    heads := [];
    for i := 0 to |logs|
      invariant heads == Heads(logs[..i])
    {
      assert logs[..i + 1][..i] == logs[..i];
      if logs[i] != [] {
        heads := heads + [logs[i][|logs[i]| - 1]];
      }
    }
    assert logs[..|logs|] == logs;
  }

  method FrontierByLoop(heads: seq<Entry>) returns (vv: Vector, frontier: seq<Entry>)
    ensures vv == JoinAll(heads) && frontier == Frontier(heads, heads)
  {
    vv, frontier := map[], [];
    for i := 0 to |heads|
      invariant vv == JoinAll(heads[..i])
      invariant frontier == Frontier(heads, heads[..i])
    {
      assert heads[..i + 1][..i] == heads[..i];
      vv := JoinByLoop(vv, heads[i].vv);
      if !Superseded(heads, heads[i]) {
        frontier := frontier + [heads[i]];
      }
    }
    assert heads[..|heads|] == heads;
  }

  method GreatestByLoop(entries: seq<Entry>) returns (e: Entry)
    requires entries != []
    ensures e == Greatest(entries)
  {
    e := entries[0];
    for i := 1 to |entries|
      invariant e == Greatest(entries[..i])
    {
      assert entries[..i + 1][..i] == entries[..i];
      if !Outranks(e, entries[i]) {
        e := entries[i];
      }
    }
    assert entries[..|entries|] == entries;
  }

  method LatestUpsertByLoop(logs: seq<Log>) returns (latest: Option<Entry>)
    ensures latest == LatestUpsert(Flatten(logs))
  {
    latest := None;
    for i := 0 to |logs|
      invariant latest == LatestUpsert(Flatten(logs[..i]))
    {
      ghost var before := Flatten(logs[..i]);
      assert logs[..i + 1][..i] == logs[..i];
      assert before + logs[i][..0] == before;
      for j := 0 to |logs[i]|
        invariant latest == LatestUpsert(before + logs[i][..j])
      {
        assert (before + logs[i][..j + 1])[..|before| + j] == before + logs[i][..j];
        latest := Later(latest, logs[i][j]);
      }
      assert logs[i][..|logs[i]|] == logs[i];
    }
    assert logs[..|logs|] == logs;
  }

  // ---- What the merged result means ----

  predicate Undominated(heads: seq<Entry>, e: Entry) {
    e in heads && !Superseded(heads, e)
  }

  lemma FrontierMembers(heads: seq<Entry>, candidates: seq<Entry>)
    ensures forall e :: e in Frontier(heads, candidates) <==> e in candidates && !Superseded(heads, e)
    ensures |Frontier(heads, candidates)| <= |candidates|
  {
    if candidates != [] {
      var n := |candidates| - 1;
      FrontierMembers(heads, candidates[..n]);
      assert candidates == candidates[..n] + [candidates[n]];
    }
  }

  lemma GreatestIsGreatest(entries: seq<Entry>)
    requires entries != []
    ensures Greatest(entries) in entries
    ensures forall e <- entries :: !Outranks(e, Greatest(entries))
  {
    var n := |entries| - 1;
    assert entries == entries[..n] + [entries[n]];
    if n > 0 {
      GreatestIsGreatest(entries[..n]);
    }
  }

  lemma JoinAllBounds(heads: seq<Entry>, u: Vector)
    ensures forall h <- heads :: Dominates(JoinAll(heads), h.vv)
    ensures Dominates(u, JoinAll(heads)) <==> forall h <- heads :: Dominates(u, h.vv)
  {
    if heads != [] {
      var n := |heads| - 1;
      assert heads == heads[..n] + [heads[n]];
      JoinAllBounds(heads[..n], u);
      JoinIsLeastUpperBound(JoinAll(heads[..n]), heads[n].vv, u);
      forall h <- heads ensures Dominates(JoinAll(heads), h.vv) {
        if h in heads[..n] {
          DominatesTransitive(JoinAll(heads), JoinAll(heads[..n]), h.vv);
        }
      }
    }
  }

  // Two frontier positions at least, counted on the heads themselves.
  predicate Contested(heads: seq<Entry>) {
    TwoUndominated(heads, heads)
  }

  // The same, of candidates among the heads.
  predicate TwoUndominated(heads: seq<Entry>, cs: seq<Entry>) {
    exists i, j :: 0 <= i < j < |cs| && !Superseded(heads, cs[i]) && !Superseded(heads, cs[j])
  }

  lemma {:induction false} FrontierSize(heads: seq<Entry>, cs: seq<Entry>)
    ensures Frontier(heads, cs) == [] <==> forall i :: 0 <= i < |cs| ==> Superseded(heads, cs[i])
    ensures |Frontier(heads, cs)| > 1 <==> TwoUndominated(heads, cs)
  {
    if cs != [] {
      var n := |cs| - 1;
      var pre := cs[..n];
      FrontierSize(heads, pre);
      assert forall i :: 0 <= i < n ==> pre[i] == cs[i];
      if Superseded(heads, cs[n]) {
        assert TwoUndominated(heads, cs) <==> TwoUndominated(heads, pre);
      } else if Frontier(heads, pre) != [] {
        var i :| 0 <= i < n && !Superseded(heads, pre[i]);
        assert !Superseded(heads, cs[i]);
        assert TwoUndominated(heads, cs);
      }
    }
  }

  predicate IsLatestUpsert(entries: seq<Entry>, e: Entry) {
    e in entries && e.op.Upsert? && forall x <- entries :: x.op.Upsert? ==> x.timestamp <= e.timestamp
  }

  // What a reader gets: a live winner's note; under a tombstone the content of a latest upsert of all entries, deleted at its time.
  predicate ReadsAs(entries: seq<Entry>, winner: Entry, note: Option<Note>) {
    match winner.op
    case Upsert(live) => note == Some(live)
    case Tombstone(at) =>
      if forall e <- entries :: e.op.Tombstone? then note.None?
      else exists e <- entries :: IsLatestUpsert(entries, e) && note == Some(Note(e.op.note.content, at, Some(at)))
  }

  lemma {:induction false} LatestUpsertMeaning(entries: seq<Entry>)
    ensures LatestUpsert(entries).None? <==> forall e <- entries :: e.op.Tombstone?
    ensures LatestUpsert(entries).Some? ==> IsLatestUpsert(entries, LatestUpsert(entries).value)
  {
    if entries != [] {
      LatestUpsertMeaning(entries[..|entries| - 1]);
      assert entries == entries[..|entries| - 1] + [entries[|entries| - 1]];
    }
  }

  // The winner alone: nobody has seen more, and among those it has the greatest time and device.
  lemma WinnerMeaning(logs: seq<Log>) returns (winner: Entry)
    requires Mergeable(logs) && Heads(logs) != []
    ensures winner == Greatest(Frontier(Heads(logs), Heads(logs))) && Undominated(Heads(logs), winner)
    ensures forall h <- Heads(logs) :: Undominated(Heads(logs), h) ==> !Outranks(h, winner)
  {
    var heads := Heads(logs);
    FrontierMembers(heads, heads);
    GreatestIsGreatest(Frontier(heads, heads));
    winner := Greatest(Frontier(heads, heads));
  }

  /**
   The merged result in terms of the heads alone: its vector is the least upper bound of theirs,
   its winner is the undominated head with the greatest time, the greatest device among those of one time, a conflict is
   reported exactly when two heads are undominated, and the winner and the latest upsert decide the note read.
   */
  lemma MergeMeaning(logs: seq<Log>) returns (winner: Entry)
    requires Mergeable(logs) && Heads(logs) != []
    ensures var heads, m := Heads(logs), Merge(logs);
            && (forall h <- heads :: Dominates(m.vv, h.vv))
            && (forall u :: (forall h <- heads :: Dominates(u, h.vv)) ==> Dominates(u, m.vv))
            && Undominated(heads, winner) && winner == Greatest(Frontier(heads, heads))
            && (forall h <- heads :: Undominated(heads, h) ==>
                  h.timestamp < winner.timestamp || (h.timestamp == winner.timestamp && h.device <= winner.device))
            && m.winnerVv == winner.vv && m.winnerDevice == Some(winner.device)
            && (m.conflict <==> Contested(heads))
            && m.note == VisibleNote(winner, LatestUpsert(Flatten(logs))) && ReadsAs(Flatten(logs), winner, m.note)
  {
    LatestUpsertMeaning(Flatten(logs));
    var heads := Heads(logs);
    winner := WinnerMeaning(logs);
    forall u ensures (forall h <- heads :: Dominates(u, h.vv)) ==> Dominates(u, JoinAll(heads)) {
      JoinAllBounds(heads, u);
    }
    JoinAllBounds(heads, map[]);
    FrontierSize(heads, heads);
  }

  // Two heads that dominate each other carry the same vector: no vector is written in two ways.
  predicate NoTwins(heads: seq<Entry>) {
    forall g <- heads, h <- heads :: Dominates(g.vv, h.vv) && Dominates(h.vv, g.vv) ==> g.vv == h.vv
  }

  lemma UndominatedExists(heads: seq<Entry>) returns (e: Entry)
    requires heads != [] && NoTwins(heads)
    ensures Undominated(heads, e)
  {
    var n := |heads| - 1;
    var x := heads[n];
    assert heads == heads[..n] + [x];
    if n == 0 {
      return x;
    }
    e := UndominatedExists(heads[..n]);
    if Dominates(x.vv, e.vv) && x.vv != e.vv {
      forall g <- heads ensures !(Dominates(g.vv, x.vv) && g.vv != x.vv) {
        if Dominates(g.vv, x.vv) && g.vv != x.vv {
          DominatesTransitive(g.vv, x.vv, e.vv);
          assert false;
        }
      }
      e := x;
    } else {
      forall g <- heads ensures !(Dominates(g.vv, e.vv) && g.vv != e.vv) {
        assert g in heads[..n] || g == x;
      }
    }
  }

  predicate AllFrom(sub: seq<Entry>, heads: seq<Entry>) {
    forall h <- sub :: h in heads
  }

  /**
   Unwrapping the winner is safe for every choice of these heads (logs arrive in any order, so
   any of them may be the visible ones) exactly when no two of them are twins.
   */
  lemma FrontierNeverEmptyIff(heads: seq<Entry>)
    ensures (forall sub: seq<Entry> | AllFrom(sub, heads) && sub != [] :: Frontier(sub, sub) != []) <==> NoTwins(heads)
  {
    if NoTwins(heads) {
      forall sub: seq<Entry> | AllFrom(sub, heads) && sub != [] ensures Frontier(sub, sub) != [] {
        var e := UndominatedExists(sub);
        FrontierMembers(sub, sub);
      }
    } else {
      var g, h :| g in heads && h in heads && Dominates(g.vv, h.vv) && Dominates(h.vv, g.vv) && g.vv != h.vv;
      var sub := [g, h];
      assert AllFrom(sub, heads);
      assert Superseded(sub, g) && Superseded(sub, h);
      FrontierSize(sub, sub);
    }
  }

  /** Vectors an append produces are zero-free, and zero-free vectors have no twins. */
  lemma ZeroFreeHeadsMerge(logs: seq<Log>)
    requires forall h <- Heads(logs) :: ZeroFree(h.vv)
    ensures NoTwins(Heads(logs)) && Mergeable(logs)
  {
    var heads := Heads(logs);
    forall g <- heads, h <- heads | Dominates(g.vv, h.vv) && Dominates(h.vv, g.vv) ensures g.vv == h.vv {
      DominatesAntisymmetric(g.vv, h.vv);
    }
    FrontierNeverEmptyIff(heads);
    assert AllFrom(heads, heads);
  }

  /** Two parseable one-entry logs on which the program's unwrap fails: an explicit zero counter. */
  lemma ExplicitZeroDefeatsMerge() returns (logs: seq<Log>)
    ensures !Mergeable(logs)
  {
    var note := Note("n", 0, None);
    var a := Entry(map[], 0, 1, Upsert(note));
    var b := Entry(map[1 := 0], 0, 2, Upsert(note));
    logs := [[a], [b]];
    assert logs[..1] == [[a]] && logs[..1][..0] == [];
    assert Heads([[a]]) == [a];
    assert Heads(logs) == [a, b];
    var heads := [a, b];
    assert heads[0] == a && heads[1] == b;
    assert 1 in b.vv && 1 !in a.vv;
    assert Superseded(heads, a) by { assert heads[1] in heads && Dominates(b.vv, a.vv); }
    assert Superseded(heads, b) by { assert heads[0] in heads && Dominates(a.vv, b.vv); }
    FrontierSize(heads, heads);
  }
}
