/** A run after which two devices that hold the same entries read different notes: the newest upserts tie in time under a tombstone. */
module ConvergenceRuns {
  import opened Wrappers
  import opened VersionVectors
  import opened NoteLog
  import opened Compaction
  import opened Replication
  import opened Convergence

  // Two devices; what the steps below look at of their state.
  ghost predicate At(steps: seq<Step>, disk: seq<seq<Log>>, have: seq<seq<nat>>) {
    && Legal(2, steps) && Run(2, steps).disk == disk && Run(2, steps).have == have && |disk| == 2
    && forall t: Device :: t < 2 ==> |Run(2, steps).hist[t]| == have[t][t]
  }

  lemma Put<T>(x: T, y: T, z: T)
    ensures [x, y][0 := z] == [z, y] && [x, y][1 := z] == [x, z]
  {
  }

  // Device d appends to its own log; `rows` and `counts` are the two rows it leaves.
  lemma ThenWrite(steps: seq<Step>, disk: seq<seq<Log>>, have: seq<seq<nat>>, d: Device, op: Op, now: Time, row: seq<Log>, counts: seq<nat>)
    returns (more: seq<Step>)
    requires At(steps, disk, have) && d < 2 && |disk[d][d]| < NOTE_LOG_COMPACT_THRESHOLD
    requires row == disk[d][d := disk[d][d] + [NewEntry(disk[d], d, op, now)]] && counts == have[d][d := have[d][d] + 1]
    ensures At(more, disk[d := row], have[d := counts])
  {
    more := steps + [Write(d, op, now)];
    assert more[..|steps|] == steps;
  }

  lemma ThenCopy(steps: seq<Step>, disk: seq<seq<Log>>, have: seq<seq<nat>>, from: Device, to: Device, owner: Device, row: seq<Log>, counts: seq<nat>)
    returns (more: seq<Step>)
    requires At(steps, disk, have) && from < 2 && to < 2 && owner < 2 && have[from][owner] >= have[to][owner]
    requires row == disk[to][owner := disk[from][owner]] && counts == have[to][owner := have[from][owner]]
    ensures At(more, disk[to := row], have[to := counts])
  {
    more := steps + [CopyLog(from, to, owner)];
    assert more[..|steps|] == steps;
  }

  const A := Entry(map[0 := 1], 1, 0, Upsert(Note("a", 1, None)))
  const B := Entry(map[1 := 1], 1, 1, Upsert(Note("b", 1, None)))
  const GONE := Entry(map[0 := 2, 1 := 1], 2, 0, Tombstone(2))

  lemma FirstEntry(d: Device, op: Op)
    ensures NewEntry([[], []], d, op, 1) == Entry(map[d := 1], 1, d, op)
  {
    var none: seq<Log> := [[], []];
    assert none[..1] == [[]] && none[..1][..0] == [];
    assert Heads(none) == [];
  }

  lemma TwoHeads(first: Log, second: Log)
    requires first != [] && second != []
    ensures Heads([first, second]) == [first[|first| - 1], second[|second| - 1]]
  {
    assert [first, second][..1] == [first] && [first][..0] == [];
    assert Heads([first]) == [first[|first| - 1]];
  }

  lemma TombstoneEntry()
    ensures NewEntry([[A], [B]], 0, Tombstone(2), 2) == GONE
  {
    TwoHeads([A], [B]);
    assert [A, B][..1] == [A] && [A][..0] == [];
    assert JoinAll([A]) == map[0 := 1];
    assert JoinAll([A, B]) == map[0 := 1, 1 := 1];
    assert Increment(map[0 := 1, 1 := 1], 0) == GONE.vv;
  }

  lemma StartReached()
    ensures At([], [[[], []], [[], []]], [[0, 0], [0, 0]])
  {
    var s := Run(2, []);
    assert s.disk[0] == [[], []] && s.disk[1] == [[], []];
    assert s.have[0] == [0, 0] && s.have[1] == [0, 0];
  }

  lemma FirstWritten() returns (steps: seq<Step>)
    ensures At(steps, [[[A], []], [[], []]], [[1, 0], [0, 0]])
  {
    StartReached();
    FirstEntry(0, A.op);
    assert [] + [A] == [A];
    steps := ThenWrite([], [[[], []], [[], []]], [[0, 0], [0, 0]], 0, A.op, 1, [[A], []], [1, 0]);
    Put([[], []], [[], []], [[A], []]);
    Put([0, 0], [0, 0], [1, 0]);
  }

  lemma BothWritten() returns (steps: seq<Step>)
    ensures At(steps, [[[A], []], [[], [B]]], [[1, 0], [0, 1]])
  {
    steps := FirstWritten();
    FirstEntry(1, B.op);
    assert [] + [B] == [B];
    steps := ThenWrite(steps, [[[A], []], [[], []]], [[1, 0], [0, 0]], 1, B.op, 1, [[], [B]], [0, 1]);
    Put([[A], []], [[], []], [[], [B]]);
    Put([1, 0], [0, 0], [0, 1]);
  }

  lemma SecondCopied() returns (steps: seq<Step>)
    ensures At(steps, [[[A], [B]], [[], [B]]], [[1, 1], [0, 1]])
  {
    steps := BothWritten();
    steps := ThenCopy(steps, [[[A], []], [[], [B]]], [[1, 0], [0, 1]], 1, 0, 1, [[A], [B]], [1, 1]);
    Put([[A], []], [[], [B]], [[A], [B]]);
    Put([1, 0], [0, 1], [1, 1]);
  }

  lemma NoteDeleted() returns (steps: seq<Step>)
    ensures At(steps, [[[A, GONE], [B]], [[], [B]]], [[2, 1], [0, 1]])
  {
    steps := SecondCopied();
    TombstoneEntry();
    assert [A] + [GONE] == [A, GONE];
    steps := ThenWrite(steps, [[[A], [B]], [[], [B]]], [[1, 1], [0, 1]], 0, GONE.op, 2, [[A, GONE], [B]], [2, 1]);
    Put([[A], [B]], [[], [B]], [[A, GONE], [B]]);
    Put([1, 1], [0, 1], [2, 1]);
  }

  // Both write at the same time, the first copies the second's log and deletes the note, the second copies the first's.
  lemma TieReached() returns (steps: seq<Step>)
    ensures At(steps, [[[A, GONE], [B]], [[A, GONE], [B]]], [[2, 1], [2, 1]])
  {
    steps := NoteDeleted();
    steps := ThenCopy(steps, [[[A, GONE], [B]], [[], [B]]], [[2, 1], [0, 1]], 0, 1, 0, [[A, GONE], [B]], [2, 1]);
    Put([[A, GONE], [B]], [[], [B]], [[A, GONE], [B]]);
    Put([2, 1], [0, 1], [2, 1]);
  }

  lemma GoneHasSeenB()
    ensures Dominates(GONE.vv, B.vv) && !Dominates(B.vv, GONE.vv) && GONE.vv != B.vv
  {
    assert 0 in GONE.vv && 0 !in B.vv;
    assert Counter(B.vv, 0) == 0 && GONE.vv[0] == 2;
  }

  lemma GoneWins(heads: seq<Entry>)
    requires heads == [GONE, B] || heads == [B, GONE]
    ensures Frontier(heads, heads) == [GONE] && Greatest([GONE]) == GONE
  {
    GoneHasSeenB();
    assert heads[0] in heads && heads[1] in heads;
    assert Superseded(heads, B) && !Superseded(heads, GONE);
    assert heads[..1] == [heads[0]] && [heads[0]][..0] == [];
    assert Frontier(heads, [heads[0]]) == Frontier(heads, []) + if heads[0] == GONE then [GONE] else [];
  }

  lemma RecoveredLast(first: Log, second: Log, e: Entry)
    requires (first, second, e) == ([A, GONE], [B], B) || (first, second, e) == ([B], [A, GONE], A)
    ensures LatestUpsert(Flatten([first, second])) == Some(e)
  {
    assert [first, second][..1] == [first] && [first][..0] == [];
    assert Flatten([first]) == first;
    var all := first + second;
    assert |all| == 3 && all[..2][..1] == all[..1] && all[..1][..0] == [];
    assert LatestUpsert(all[..1]) == Some(all[0]);
    assert LatestUpsert(all[..2]) == Later(Some(all[0]), all[1]);
  }

  lemma TiedReading()
    ensures Mergeable([[A, GONE], [B]]) && Merge([[A, GONE], [B]]).note == Some(Note("b", 2, Some(2)))
    ensures Mergeable([[B], [A, GONE]]) && Merge([[B], [A, GONE]]).note == Some(Note("a", 2, Some(2)))
  {
    TwoHeads([A, GONE], [B]);
    TwoHeads([B], [A, GONE]);
    GoneWins([GONE, B]);
    GoneWins([B, GONE]);
    RecoveredLast([A, GONE], [B], B);
    RecoveredLast([B], [A, GONE], A);
  }

  lemma Listed(s: System, d: Device, first: Log, second: Log)
    requires Shaped(s) && |s.disk| == 2 && d < 2 && s.disk[d] == [first, second]
    ensures IsListing(s, d, [0, 1]) && Files(s, d, [0, 1]) == [first, second]
    ensures IsListing(s, d, [1, 0]) && Files(s, d, [1, 0]) == [second, first]
  {
    var order: seq<Device>, reverse: seq<Device> := [0, 1], [1, 0];
    assert order[0] == 0 && order[1] == 1 && reverse[0] == 1 && reverse[1] == 0;
  }

  lemma DifferentNotes(n: nat, steps: seq<Step>, d: Device, e: Device, order1: seq<Device>, order2: seq<Device>)
    requires Legal(n, steps) && d < |Run(n, steps).disk| && e < |Run(n, steps).disk| && SameHoldings(Run(n, steps), d, e)
    requires IsListing(Run(n, steps), d, order1) && IsListing(Run(n, steps), e, order2)
    requires var s := Run(n, steps);
             && Mergeable(Files(s, d, order1)) && Mergeable(Files(s, e, order2))
             && Merge(Files(s, d, order1)).note != Merge(Files(s, e, order2)).note
    ensures !ReadsLive(Run(n, steps), d, order1) && !TopOffersAgree(Run(n, steps), d)
  {
    SameNoteIff(n, steps, d, order1);
  }

  /** The condition of SameNoteIff does fail: two devices holding the same entries, listed in either order, read different notes. */
  lemma TiedUpsertsDiverge() returns (steps: seq<Step>)
    ensures Legal(2, steps) && |Run(2, steps).disk| == 2 && SameHoldings(Run(2, steps), 0, 1)
    ensures IsListing(Run(2, steps), 0, [0, 1]) && IsListing(Run(2, steps), 1, [1, 0])
    ensures var s := Run(2, steps);
            && Mergeable(Files(s, 0, [0, 1])) && Mergeable(Files(s, 1, [1, 0]))
            && !ReadsLive(s, 0, [0, 1]) && !TopOffersAgree(s, 0)
            && Merge(Files(s, 0, [0, 1])).note == Some(Note("b", 2, Some(2)))
            && Merge(Files(s, 1, [1, 0])).note == Some(Note("a", 2, Some(2)))
  {
    steps := TieReached();
    Listed(Run(2, steps), 0, [A, GONE], [B]);
    Listed(Run(2, steps), 1, [A, GONE], [B]);
    TiedReading();
    DifferentNotes(2, steps, 0, 1, [0, 1], [1, 0]);
  }
}
