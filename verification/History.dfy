/**
 A note's version history, the state at an instant, and reverting to it.
 */
module History {
  import opened Wrappers
  import opened VersionVectors
  import opened NoteLog
  import opened Compaction
  import opened Replication
  import opened Convergence

  const REVERT_SCAN_LIMIT: nat := 10_000

  // Newest first by (timestamp, device), keeping listing order among equals.
  function Insert(e: Entry, sorted: seq<Entry>): seq<Entry> {
    if sorted == [] || Outranks(e, sorted[0]) || !Outranks(sorted[0], e) then [e] + sorted
    else [sorted[0]] + Insert(e, sorted[1..])
  }

  function NewestFirst(entries: seq<Entry>): seq<Entry> {
    if entries == [] then [] else Insert(entries[0], NewestFirst(entries[1..]))
  }

  function Take(entries: seq<Entry>, cap: nat): seq<Entry> {
    if |entries| <= cap then entries else entries[..cap]
  }

  function VersionsOf(logs: seq<Log>, cap: nat): seq<Entry> {
    Take(NewestFirst(Flatten(logs)), cap)
  }

  // The first version at or before the instant.
  function StateAt(versions: seq<Entry>, at: Time): Option<Entry> {
    if versions == [] then None
    else if versions[0].timestamp <= at then Some(versions[0])
    else StateAt(versions[1..], at)
  }

  predicate Descending(entries: seq<Entry>) {
    forall i, j :: 0 <= i < j < |entries| ==> !Outranks(entries[j], entries[i])
  }

  lemma {:induction false} InsertKeeps(e: Entry, sorted: seq<Entry>)
    ensures multiset(Insert(e, sorted)) == multiset(sorted) + multiset{e}
  {
    if sorted != [] {
      InsertKeeps(e, sorted[1..]);
      assert sorted == [sorted[0]] + sorted[1..];
    }
  }

  lemma {:induction false} InsertSorts(e: Entry, sorted: seq<Entry>)
    requires Descending(sorted)
    ensures Descending(Insert(e, sorted))
  {
    if !(sorted == [] || Outranks(e, sorted[0]) || !Outranks(sorted[0], e)) {
      var rest := Insert(e, sorted[1..]);
      InsertSorts(e, sorted[1..]);
      InsertKeeps(e, sorted[1..]);
      forall j | 0 <= j < |rest| ensures !Outranks(rest[j], sorted[0]) {
        assert rest[j] in multiset(sorted[1..]) + multiset{e} by {
          assert rest[j] in multiset(rest);
        }
      }
    }
  }

  lemma NewestFirstSorts(entries: seq<Entry>)
    ensures Descending(NewestFirst(entries)) && multiset(NewestFirst(entries)) == multiset(entries)
  {
    if entries != [] {
      NewestFirstSorts(entries[1..]);
      InsertSorts(entries[0], NewestFirst(entries[1..]));
      InsertKeeps(entries[0], NewestFirst(entries[1..]));
      assert entries == [entries[0]] + entries[1..];
    }
  }

  // How many versions are newer than the instant.
  function NewerThan(entries: seq<Entry>, at: Time): nat {
    if entries == [] then 0 else (if entries[0].timestamp > at then 1 else 0) + NewerThan(entries[1..], at)
  }

  lemma StateAtSorted(versions: seq<Entry>, at: Time)
    requires Descending(versions)
    ensures NewerThan(versions, at) <= |versions|
    ensures var k := NewerThan(versions, at);
            StateAt(versions, at) == if k == |versions| then None else Some(versions[k])
    ensures forall i :: 0 <= i < |versions| ==> (versions[i].timestamp > at <==> i < NewerThan(versions, at))
  {
    if versions != [] {
      StateAtSorted(versions[1..], at);
      forall i | 0 < i < |versions| ensures versions[i].timestamp > at <==> i - 1 < NewerThan(versions[1..], at) {
        assert versions[1..][i - 1] == versions[i];
      }
      if versions[0].timestamp <= at && |versions| > 1 {
        assert versions[1].timestamp <= at;
        assert NewerThan(versions[1..], at) == 0;
      }
    }
  }

  predicate IsNewestAt(entries: seq<Entry>, at: Time, e: Entry) {
    && e in entries && e.timestamp <= at
    && forall x <- entries :: x.timestamp <= at ==> !Outranks(x, e)
  }

  lemma SortedMembers(entries: seq<Entry>)
    ensures forall e :: e in entries <==> e in NewestFirst(entries)
  {
    NewestFirstSorts(entries);
    forall e ensures e in entries <==> e in NewestFirst(entries) {
      assert e in entries <==> e in multiset(entries);
      assert e in NewestFirst(entries) <==> e in multiset(NewestFirst(entries));
    }
  }

  lemma StateAtOfSorted(sorted: seq<Entry>, at: Time, cap: nat)
    requires Descending(sorted)
    ensures var found := StateAt(Take(sorted, cap), at);
            && (found.Some? ==> IsNewestAt(sorted, at, found.value))
            && (found.None? <==> NewerThan(sorted, at) >= cap || forall e <- sorted :: e.timestamp > at)
  {
    var versions := Take(sorted, cap);
    StateAtSorted(sorted, at);
    StateAtSorted(versions, at);
    var k, kv := NewerThan(sorted, at), NewerThan(versions, at);
    assert forall i :: 0 <= i < |versions| ==> versions[i] == sorted[i];
    assert forall i :: 0 <= i < |versions| ==> (sorted[i].timestamp > at <==> i < kv);
  }

  /**
   The state at an instant is a newest version at or before it, and it is missing exactly when
   there is none or the cap's worth of versions is newer than the instant.
   */
  lemma StateAtIsNewest(logs: seq<Log>, at: Time, cap: nat)
    ensures var found := StateAt(VersionsOf(logs, cap), at);
            var newer := NewerThan(NewestFirst(Flatten(logs)), at);
            && (found.Some? ==> IsNewestAt(Flatten(logs), at, found.value))
            && (found.None? <==> newer >= cap || forall e <- Flatten(logs) :: e.timestamp > at)
  {
    NewestFirstSorts(Flatten(logs));
    SortedMembers(Flatten(logs));
    StateAtOfSorted(NewestFirst(Flatten(logs)), at, cap);
  }

  lemma {:induction false} NewerThanInsert(e: Entry, sorted: seq<Entry>, at: Time)
    ensures NewerThan(Insert(e, sorted), at) == NewerThan([e] + sorted, at)
  {
    assert ([e] + sorted)[1..] == sorted;
    if !(sorted == [] || Outranks(e, sorted[0]) || !Outranks(sorted[0], e)) {
      var rest := Insert(e, sorted[1..]);
      NewerThanInsert(e, sorted[1..], at);
      assert ([sorted[0]] + rest)[1..] == rest && ([e] + sorted[1..])[1..] == sorted[1..];
    }
  }

  lemma {:induction false} SortingKeepsCount(entries: seq<Entry>, at: Time)
    ensures NewerThan(NewestFirst(entries), at) == NewerThan(entries, at)
  {
    if entries != [] {
      SortingKeepsCount(entries[1..], at);
      NewerThanInsert(entries[0], NewestFirst(entries[1..]), at);
      assert ([entries[0]] + NewestFirst(entries[1..]))[1..] == NewestFirst(entries[1..]);
    }
  }

  /** A revert finds the version it goes back to exactly if there is one and fewer than 10 000 versions are newer than the instant. */
  lemma RevertFindsIff(logs: seq<Log>, at: Time)
    ensures StateAt(VersionsOf(logs, REVERT_SCAN_LIMIT), at).Some? <==>
            NewerThan(Flatten(logs), at) < 10_000 && exists e <- Flatten(logs) :: e.timestamp <= at
  {
    StateAtIsNewest(logs, at, REVERT_SCAN_LIMIT);
    SortingKeepsCount(Flatten(logs), at);
  }

  // The operation a revert appends, given the version it goes back to; `stamp` is the clock as the revert reads it.
  function RevertOp(target: Entry, stamp: Time): Op {
    match target.op
    case Upsert(note) => Upsert(note.(updatedAt := stamp, deletedAt := None))
    case Tombstone(_) => Tombstone(stamp)
  }

  // Deleting offers no content and takes none away, whether or not the log is compacted with it.
  lemma TombstoneKeepsOffers(s: System, d: Device, stamp: Time, now: Time, t: Device)
    requires Inv(s) && d < |s.disk| && t < |s.disk|
    ensures Offer(Next(s, Write(d, Tombstone(stamp), now)), d, t) == Offer(s, d, t)
  {
    if t == d {
      var log, e := s.disk[d][d], NewEntry(s.disk[d], d, Tombstone(stamp), now);
      var longer := log + [e];
      assert longer[..|log|] == log;
      assert WrittenBy(longer, d);
      WrittenBySingleDevice(longer, d);
      CompactIsSelection(longer);
      CompactKeepsDigest(longer);
      SameLogDigest(longer, Compact(longer));
      SameLogReadsSame(longer, Compact(longer));
    }
  }

  // The note with the content of one of the newest upserts the device held, deleted at the stamp; none if it held none.
  predicate ReadsDeleted(s: System, d: Device, stamp: Time, note: Option<Note>)
    requires Shaped(s) && d < |s.disk|
  {
    if forall t: Device :: t < |s.disk| ==> Offer(s, d, t).None? then note.None?
    else
      exists t: Device ::
        && t < |s.disk| && TopOffer(s, d, t) && OfferedContent(s, d, t).Some?
        && note == Some(Note(OfferedContent(s, d, t).value, stamp, Some(stamp)))
  }

  lemma DeletedNoteRecovered(s: System, d: Device, stamp: Time, now: Time, after: seq<Device>, winner: Entry)
    requires Inv(s) && d < |s.disk| && winner.op == Tombstone(stamp)
    requires IsListing(Next(s, Write(d, Tombstone(stamp), now)), d, after)
    ensures var files := Files(Next(s, Write(d, Tombstone(stamp), now)), d, after);
            ReadsDeleted(s, d, stamp, VisibleNote(winner, LatestUpsert(Flatten(files))))
  {
    var s' := Next(s, Write(d, Tombstone(stamp), now));
    forall t: Device | t < |s.disk| ensures Offer(s', d, t) == Offer(s, d, t) {
      TombstoneKeepsOffers(s, d, stamp, now, t);
    }
    RecoveredIsTopOffer(s', d, after);
    RecoveredReads(s, s', d, stamp, LatestUpsert(Flatten(Files(s', d, after))), winner);
  }

  lemma RecoveredReads(s: System, s': System, d: Device, stamp: Time, r: Option<Entry>, winner: Entry)
    requires Shaped(s) && Shaped(s') && d < |s.disk| == |s'.disk| && winner.op == Tombstone(stamp)
    requires forall t: Device :: t < |s.disk| ==> Offer(s', d, t) == Offer(s, d, t)
    requires if r.None? then forall t: Device :: t < |s'.disk| ==> Offer(s', d, t).None?
             else exists t: Device :: t < |s'.disk| && TopOffer(s', d, t) && Offer(s', d, t) == r
    ensures ReadsDeleted(s, d, stamp, VisibleNote(winner, r))
  {
    if r.Some? {
      var t: Device :| t < |s'.disk| && TopOffer(s', d, t) && Offer(s', d, t) == r;
      LatestUpsertIsUpsert(s'.disk[d][t]);
      assert Offer(s, d, t) == r && TopOffer(s, d, t);
    }
  }

  /**
   After a revert the device reads the newest version at or before the instant, apart from its updated
   and deleted stamps, with no conflict. Going back to a deletion leaves the note deleted now, and its
   content that of a newest upsert there is, not of one at the instant.
   */
  lemma RevertRestores(n: nat, steps: seq<Step>, d: Device, order: seq<Device>, at: Time, stamp: Time, now: Time, after: seq<Device>)
    requires Legal(n, steps) && d < |Run(n, steps).disk| && IsListing(Run(n, steps), d, order)
    requires StateAt(VersionsOf(Files(Run(n, steps), d, order), REVERT_SCAN_LIMIT), at).Some?
    requires var target := StateAt(VersionsOf(Files(Run(n, steps), d, order), REVERT_SCAN_LIMIT), at).value;
             IsListing(Next(Run(n, steps), Write(d, RevertOp(target, stamp), now)), d, after)
    ensures var s := Run(n, steps);
            var target := StateAt(VersionsOf(Files(s, d, order), REVERT_SCAN_LIMIT), at).value;
            var files := Files(Next(s, Write(d, RevertOp(target, stamp), now)), d, after);
            && IsNewestAt(Flatten(Files(s, d, order)), at, target)
            && Mergeable(files) && !Merge(files).conflict
            && match target.op
               case Upsert(note) => Merge(files).note == Some(Note(note.content, stamp, None))
               case Tombstone(_) => ReadsDeleted(s, d, stamp, Merge(files).note)
  {
    var s := Run(n, steps);
    var target := StateAt(VersionsOf(Files(s, d, order), REVERT_SCAN_LIMIT), at).value;
    StateAtIsNewest(Files(s, d, order), at, REVERT_SCAN_LIMIT);
    ReadYourWrites(n, steps, d, RevertOp(target, stamp), now, after);
    if target.op.Tombstone? {
      RunInv(n, steps);
      DeletedNoteRecovered(s, d, stamp, now, after, NewEntry(s.disk[d], d, Tombstone(stamp), now));
    }
  }
}
