/**
 Shortening a device's own log, and why no reader can tell.
 */
module Compaction {
  import opened Wrappers
  import opened VersionVectors
  import opened NoteLog

  // The position of the last of the greatest upserts, or -1.
  function NewestUpsert(log: Log): (i: int)
    ensures -1 <= i < |log|
    ensures i >= 0 ==> log[i].op.Upsert?
  {
    if log == [] then -1
    else
      var n := |log| - 1;
      var i := NewestUpsert(log[..n]);
      if log[n].op.Upsert? && (i < 0 || !Outranks(log[i], log[n])) then n else i
  }

  function Compact(log: Log): Log {
    if |log| <= 1 then log
    else
      var n := |log| - 1;
      var i := NewestUpsert(log);
      if i < 0 || i == n then [log[n]] else [log[i], log[n]]
  }

  // Each log file has one writer.
  predicate SingleDevice(log: Log) {
    forall e <- log, f <- log :: e.device == f.device
  }

  lemma NewestUpsertIsLatest(log: Log)
    requires SingleDevice(log)
    ensures LatestUpsert(log) == if NewestUpsert(log) < 0 then None else Some(log[NewestUpsert(log)])
  {
    if log != [] {
      var n := |log| - 1;
      assert log == log[..n] + [log[n]];
      NewestUpsertIsLatest(log[..n]);
    }
  }

  // The latest upsert of two stretches read one after the other.
  function Combine(a: Option<Entry>, b: Option<Entry>): Option<Entry> {
    if b.Some? && (a.None? || b.value.timestamp >= a.value.timestamp) then b else a
  }

  lemma LatestUpsertConcat(a: seq<Entry>, b: seq<Entry>)
    ensures LatestUpsert(a + b) == Combine(LatestUpsert(a), LatestUpsert(b))
  {
    if b == [] {
      assert a + b == a;
    } else {
      var n := |b| - 1;
      assert (a + b)[..|a + b| - 1] == a + b[..n];
      LatestUpsertConcat(a, b[..n]);
    }
  }

  lemma NewestUpsertTwo(x: Entry, y: Entry)
    ensures NewestUpsert([x]) == if x.op.Upsert? then 0 else -1
    ensures NewestUpsert([x, y]) ==
            if y.op.Upsert? && (!x.op.Upsert? || !Outranks(x, y)) then 1 else if x.op.Upsert? then 0 else -1
  {
    assert [x][..0] == [];
    assert [x, y][..1] == [x];
  }

  // The newest upsert outranks whatever upsert comes after it.
  lemma NewestUpsertOutranksLast(log: Log)
    requires log != [] && 0 <= NewestUpsert(log) < |log| - 1 && log[|log| - 1].op.Upsert?
    ensures Outranks(log[NewestUpsert(log)], log[|log| - 1])
  {}

  // What compaction keeps of a log, and all that it keeps.
  predicate SameDigest(a: Log, b: Log) {
    && (a == [] <==> b == [])
    && (NewestUpsert(a) < 0 <==> NewestUpsert(b) < 0)
    && (NewestUpsert(a) >= 0 ==> a[NewestUpsert(a)] == b[NewestUpsert(b)])
    && (a != [] ==> a[|a| - 1] == b[|b| - 1])
    && (a != [] ==> (NewestUpsert(a) == |a| - 1 <==> NewestUpsert(b) == |b| - 1))
  }

  lemma CompactKeepsDigest(log: Log)
    ensures SameDigest(log, Compact(log))
  {
    if |log| > 1 {
      var n, i := |log| - 1, NewestUpsert(log);
      NewestUpsertTwo(log[n], log[n]);
      if 0 <= i < n {
        NewestUpsertTwo(log[i], log[n]);
        if log[n].op.Upsert? {
          NewestUpsertOutranksLast(log);
        }
      }
    }
  }

  lemma DigestDecidesCompact(a: Log, b: Log)
    requires SameDigest(a, b)
    ensures Compact(a) == Compact(b)
  {
    if |a| == 1 || |b| == 1 {
      assert |a| == 1 ==> a == [a[0]];
      assert |b| == 1 ==> b == [b[0]];
    }
  }

  lemma NewestUpsertAppend(a: Log, e: Entry)
    ensures NewestUpsert(a + [e]) ==
            if e.op.Upsert? && (NewestUpsert(a) < 0 || !Outranks(a[NewestUpsert(a)], e)) then |a| else NewestUpsert(a)
  {
    assert (a + [e])[..|a|] == a;
  }

  lemma DigestOfAppend(a: Log, b: Log, e: Entry)
    requires SameDigest(a, b)
    ensures SameDigest(a + [e], b + [e])
  {
    NewestUpsertAppend(a, e);
    NewestUpsertAppend(b, e);
  }

  // Two files that compaction makes equal, now and after any further appends.
  predicate SameLog(a: Log, b: Log) {
    Compact(a) == Compact(b)
  }

  lemma SameLogDigest(a: Log, b: Log)
    ensures SameLog(a, b) <==> SameDigest(a, b)
  {
    if SameDigest(a, b) {
      DigestDecidesCompact(a, b);
    } else if SameLog(a, b) {
      CompactKeepsDigest(a);
      CompactKeepsDigest(b);
      assert false;
    }
  }

  lemma SameLogAppend(a: Log, b: Log, e: Entry)
    requires SameLog(a, b)
    ensures SameLog(a + [e], b + [e])
  {
    SameLogDigest(a, b);
    DigestOfAppend(a, b, e);
    SameLogDigest(a + [e], b + [e]);
  }

  /** Compacting now and again after any later appends gives what compacting once at the end gives. */
  lemma {:induction false} CompactNowOrLater(log: Log, later: Log)
    ensures Compact(Compact(log) + later) == Compact(log + later)
  {
    if later == [] {
      assert Compact(log) + later == Compact(log) && log + later == log;
      CompactKeepsDigest(log);
      DigestDecidesCompact(log, Compact(log));
    } else {
      var n := |later| - 1;
      CompactNowOrLater(log, later[..n]);
      SameLogAppend(Compact(log) + later[..n], log + later[..n], later[n]);
      assert Compact(log) + later == (Compact(log) + later[..n]) + [later[n]];
      assert log + later == (log + later[..n]) + [later[n]];
    }
  }

  // What a merge reads of one log.
  lemma SameLogReadsSame(a: Log, b: Log)
    requires SameLog(a, b) && SingleDevice(a) && SingleDevice(b)
    ensures a == [] <==> b == []
    ensures a != [] ==> a[|a| - 1] == b[|b| - 1]
    ensures LatestUpsert(a) == LatestUpsert(b)
  {
    SameLogDigest(a, b);
    NewestUpsertIsLatest(a);
    NewestUpsertIsLatest(b);
  }

  predicate SameLogs(a: seq<Log>, b: seq<Log>) {
    |a| == |b| && forall i :: 0 <= i < |a| ==> SameLog(a[i], b[i])
  }

  predicate OneWriterEach(logs: seq<Log>) {
    forall i :: 0 <= i < |logs| ==> SingleDevice(logs[i])
  }

  lemma SameLogsReadSame(a: seq<Log>, b: seq<Log>)
    requires SameLogs(a, b) && OneWriterEach(a) && OneWriterEach(b)
    ensures Heads(a) == Heads(b)
    ensures LatestUpsert(Flatten(a)) == LatestUpsert(Flatten(b))
  {
    if a != [] {
      var n := |a| - 1;
      SameLogsReadSame(a[..n], b[..n]);
      SameLogReadsSame(a[n], b[n]);
      LatestUpsertConcat(Flatten(a[..n]), a[n]);
      LatestUpsertConcat(Flatten(b[..n]), b[n]);
    }
  }

  /** Replacing any of the logs by logs with the same compaction leaves every field of the merge unchanged. */
  lemma CompactionInvisible(a: seq<Log>, b: seq<Log>)
    requires SameLogs(a, b) && OneWriterEach(a) && OneWriterEach(b)
    ensures Mergeable(a) <==> Mergeable(b)
    ensures Mergeable(a) ==> Merge(a) == Merge(b)
  {
    SameLogsReadSame(a, b);
  }

  /** In particular, compacting any subset of the logs. */
  lemma CompactingSomeLogsInvisible(logs: seq<Log>, which: set<nat>)
    requires OneWriterEach(logs)
    ensures var packed := seq(|logs|, i requires 0 <= i < |logs| => if i in which then Compact(logs[i]) else logs[i]);
            Mergeable(logs) ==> Mergeable(packed) && Merge(packed) == Merge(logs)
  {
    var packed := seq(|logs|, i requires 0 <= i < |logs| => if i in which then Compact(logs[i]) else logs[i]);
    forall i | 0 <= i < |logs| ensures SameLog(logs[i], packed[i]) && SingleDevice(packed[i]) {
      CompactKeepsDigest(logs[i]);
      SameLogDigest(logs[i], Compact(logs[i]));
      CompactIsSelection(logs[i]);
    }
    CompactionInvisible(logs, packed);
  }

  lemma CompactIsSelection(log: Log)
    ensures forall e <- Compact(log) :: e in log
    ensures |Compact(log)| <= 2
  {}
}
