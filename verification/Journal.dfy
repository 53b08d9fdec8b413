/**
 The per-device change journal: a writer that appends lines or replaces the file by a snapshot
 under a new epoch, and a reader that keeps an (epoch, byte offset) cursor into its own copy.
 */
module Journal {
  import opened Wrappers

  type Entity = nat

  // The state of an entity's sidecar after its `rev`-th write, as a journal line carries it.
  datatype Item = Item(entity: Entity, rev: nat)

  // One line of the file with its length in bytes, newline included.
  datatype Line =
    | Header(epoch: nat, len: nat)
    | Record(item: Item, len: nat)

  type File = seq<Line>

  // ---- Bytes and epochs ----

  function Digits(n: nat): nat {
    if n < 10 then 1 else 1 + Digits(n / 10)
  }

  // The length of a header line.
  function HeaderLength(epoch: nat): nat {
    23 + Digits(epoch)
  }

  // `n` in decimal.
  function Decimal(n: nat): (text: string)
    ensures |text| == Digits(n)
  {
    var digit := ['0' + (n % 10) as char];
    if n < 10 then digit else Decimal(n / 10) + digit
  }

  lemma HeaderLengthIsText(epoch: nat)
    ensures HeaderLength(epoch) == |"{\"__keeplin_epoch__\":" + Decimal(epoch) + "}\n"|
  {
  }

  lemma DigitsMonotone(m: nat, n: nat)
    requires m <= n
    ensures Digits(m) <= Digits(n)
  {
    if m >= 10 {
      DigitsMonotone(m / 10, n / 10);
    }
  }

  // The byte at which line k starts; for k = |file|, the file's size.
  function Position(file: File, k: nat): nat
    requires k <= |file|
  {
    if k == 0 then 0 else Position(file, k - 1) + file[k - 1].len
  }

  function Size(file: File): nat {
    Position(file, |file|)
  }

  // A file without a header, and a missing one, is at epoch 0.
  function EpochOf(file: File): nat {
    if file != [] && file[0].Header? then file[0].epoch else 0
  }

  function HeaderLengthOf(file: File): nat {
    if file != [] && file[0].Header? then file[0].len else 0
  }

  // Every line is whole, and a header stands only in front, written for its epoch.
  predicate WellFormed(file: File) {
    && (forall k :: 0 <= k < |file| ==> file[k].len > 0)
    && (forall k :: 0 < k < |file| ==> file[k].Record?)
    && (file != [] && file[0].Header? ==> file[0].epoch > 0 && file[0].len == HeaderLength(file[0].epoch))
  }

  lemma PositionMonotone(file: File, i: nat, j: nat)
    requires WellFormed(file) && i <= j <= |file|
    ensures Position(file, i) <= Position(file, j)
    ensures i < j ==> Position(file, i) < Position(file, j)
  {
    if i < j {
      PositionMonotone(file, i, j - 1);
    }
  }

  lemma PositionOfPrefix(file: File, longer: File, k: nat)
    requires file <= longer && k <= |file|
    ensures Position(file, k) == Position(longer, k)
  {
    if k > 0 {
      PositionOfPrefix(file, longer, k - 1);
    }
  }

  // ---- What one read delivers ----

  // The records that start at or after the byte the reader seeks to; a fragment before the next line is malformed and skipped.
  function RecordsFrom(file: File, start: nat, k: nat): seq<Item>
    requires k <= |file|
  {
    if k == 0 then []
    else
      RecordsFrom(file, start, k - 1) +
      (if file[k - 1].Record? && Position(file, k - 1) >= start then [file[k - 1].item] else [])
  }

  // The lines that hand over something: the records that start at or after `start`, among the first k lines.
  predicate HandsOver(file: File, start: nat, k: nat, i: nat)
    requires k <= |file|
  {
    i < k && file[i].Record? && start <= Position(file, i)
  }

  // `lines` are the numbers of those lines in file order, none left out.
  ghost predicate LinesInOrder(file: File, start: nat, k: nat, lines: seq<nat>)
    requires k <= |file|
  {
    && (forall i, j :: 0 <= i < j < |lines| ==> lines[i] < lines[j])
    && (forall i :: 0 <= i < |lines| ==> HandsOver(file, start, k, lines[i]))
    && (forall line: nat :: HandsOver(file, start, k, line) ==> line in lines)
  }

  lemma NextLine(file: File, start: nat, k: nat, front: seq<nat>)
    requires 0 < k <= |file| && LinesInOrder(file, start, k - 1, front)
    ensures LinesInOrder(file, start, k, if HandsOver(file, start, k, k - 1) then front + [k - 1] else front)
  {
    var lines := if HandsOver(file, start, k, k - 1) then front + [k - 1] else front;
    forall i | 0 <= i < |lines| ensures HandsOver(file, start, k, lines[i]) {
      assert i < |front| ==> HandsOver(file, start, k - 1, front[i]);
    }
    forall line: nat | HandsOver(file, start, k, line) ensures line in lines {
      assert line < k - 1 ==> HandsOver(file, start, k - 1, line);
    }
  }

  // The entries are the items of the lines.
  predicate CarriedBy(entries: seq<Item>, file: File, lines: seq<nat>) {
    && |entries| == |lines|
    && forall i :: 0 <= i < |lines| ==> lines[i] < |file| && file[lines[i]].Record? && entries[i] == file[lines[i]].item
  }

  lemma OneItemMore(before: seq<Item>, file: File, front: seq<nat>, line: nat)
    requires CarriedBy(before, file, front) && line < |file| && file[line].Record?
    ensures CarriedBy(before + [file[line].item], file, front + [line])
  {
  }

  lemma NextItem(file: File, start: nat, k: nat, front: seq<nat>)
    requires 0 < k <= |file| && CarriedBy(RecordsFrom(file, start, k - 1), file, front)
    ensures CarriedBy(RecordsFrom(file, start, k), file, if HandsOver(file, start, k, k - 1) then front + [k - 1] else front)
  {
    var before := RecordsFrom(file, start, k - 1);
    if HandsOver(file, start, k, k - 1) {
      assert RecordsFrom(file, start, k) == before + [file[k - 1].item];
      OneItemMore(before, file, front, k - 1);
    } else {
      assert RecordsFrom(file, start, k) == before + [] == before;
    }
  }

  lemma NoLines(file: File, start: nat)
    ensures LinesInOrder(file, start, 0, []) && CarriedBy(RecordsFrom(file, start, 0), file, [])
  {
  }

  /** What is handed over are, in file order, the items of exactly the records that start at or after the byte sought. */
  lemma {:induction false} RecordsInOrder(file: File, start: nat, k: nat) returns (lines: seq<nat>)
    requires k <= |file|
    ensures LinesInOrder(file, start, k, lines)
    ensures CarriedBy(RecordsFrom(file, start, k), file, lines)
  {
    if k == 0 {
      lines := [];
      NoLines(file, start);
    } else {
      var front := RecordsInOrder(file, start, k - 1);
      NextLine(file, start, k, front);
      NextItem(file, start, k, front);
      lines := if HandsOver(file, start, k, k - 1) then front + [k - 1] else front;
    }
  }

  function EndOffset(file: File, start: nat): nat {
    if Size(file) > start then Size(file) else start
  }

  datatype Cursor = Cursor(epoch: nat, offset: nat)

  function StartOf(cursor: Cursor, epoch: nat, headerLength: nat): nat {
    if epoch != cursor.epoch then headerLength else cursor.offset
  }

  function Advance(cursor: Cursor, epoch: nat, end: nat, saved: bool): Cursor {
    if saved && (epoch != cursor.epoch || end > cursor.offset) then Cursor(epoch, end) else cursor
  }

  /** The reader's stored cursor and the loop over the lines of one file. */
  class LogReader {
    var cursor: Cursor

    constructor ()
      ensures cursor == Cursor(0, 0)
    {
      cursor := Cursor(0, 0);
    }

    // The second half of a read: `epoch` and `headerLength` came from an earlier look at the file.
    method ReadNewEntries(epoch: nat, headerLength: nat, file: File, saved: bool) returns (entries: seq<Item>)
      requires WellFormed(file)
      modifies this
      ensures var start := StartOf(old(cursor), epoch, headerLength);
              && entries == RecordsFrom(file, start, |file|)
              && cursor == Advance(old(cursor), epoch, EndOffset(file, start), saved)
    {
      var start := StartOf(cursor, epoch, headerLength);
      var newOffset := start;
      var position := 0;
      entries := [];
      for k := 0 to |file|
        invariant position == Position(file, k)
        invariant newOffset == if position > start then position else start
        invariant entries == RecordsFrom(file, start, k)
      {
        var n := file[k].len;
        if position + n > start {
          newOffset := position + n;
          if position >= start && file[k].Record? {
            entries := entries + [file[k].item];
          }
        }
        position := position + n;
      }
      if saved && (epoch != cursor.epoch || newOffset > cursor.offset) {
        cursor := Cursor(epoch, newOffset);
      }
    }
  }

  // ---- What the writer does to its file ----

  const SOFT_BYTES := 65536
  const COMPACT_THRESHOLD := 512

  // One sidecar as the snapshot loop finds it: its state at the moment it is read, or none if it cannot be parsed.
  datatype Sidecar = Sidecar(entity: Entity, association: bool, rev: Option<nat>, len: nat)

  // An unreadable sidecar puts the compaction off, but for an association's, which is taken for attached with the least priority.
  predicate Stops(found: Sidecar) {
    found.rev.None? && !found.association
  }

  predicate NoneStops(found: seq<Sidecar>) {
    forall f <- found :: !Stops(f)
  }

  // No write has state 0: it stands for the least priority.
  function ItemFound(found: Sidecar): Item {
    Item(found.entity, if found.rev.Some? then found.rev.value else 0)
  }

  function SnapshotOf(found: seq<Sidecar>): (lines: seq<Line>)
    ensures |lines| == |found|
  {
    seq(|found|, k requires 0 <= k < |found| => Record(ItemFound(found[k]), found[k].len))
  }

  function CompactedFile(file: File, snapshot: seq<Line>): File {
    [Header(EpochOf(file) + 1, HeaderLength(EpochOf(file) + 1))] + snapshot
  }

  /** A compacted file: the header of the next epoch, then one record for each sidecar, with its state or, unreadable, the least. */
  lemma CompactedFileMeaning(file: File, found: seq<Sidecar>)
    ensures var compacted := CompactedFile(file, SnapshotOf(found));
            && |compacted| == 1 + |found| && EpochOf(compacted) == EpochOf(file) + 1
            && HeaderLengthOf(compacted) == 23 + |Decimal(EpochOf(file) + 1)|
            && forall k :: 0 <= k < |found| ==>
                 && compacted[k + 1].Record? && compacted[k + 1].len == found[k].len && compacted[k + 1].item.entity == found[k].entity
                 && compacted[k + 1].item.rev == (match found[k].rev case Some(rev) => rev case None => 0)
  {
  }

  function EntryCount(file: File): nat {
    if file == [] then 0
    else EntryCount(file[..|file| - 1]) + if file[|file| - 1].Record? then 1 else 0
  }

  predicate OverThreshold(file: File) {
    Size(file) >= SOFT_BYTES && EntryCount(file) > COMPACT_THRESHOLD
  }

  function RecordLines(file: File): set<nat> {
    set i: nat | i < |file| && file[i].Record?
  }

  lemma {:induction false} EntryCountIsRecords(file: File)
    ensures EntryCount(file) == |RecordLines(file)|
  {
    if file != [] {
      var n := |file| - 1;
      EntryCountIsRecords(file[..n]);
      assert RecordLines(file) == RecordLines(file[..n]) + if file[n].Record? then {n} else {};
    }
  }

  /** The writer compacts from 64 KiB on, and only a file that holds more than 512 records. */
  lemma OverThresholdIff(file: File)
    ensures OverThreshold(file) <==> Size(file) >= 65536 && |RecordLines(file)| > 512
  {
    EntryCountIsRecords(file);
  }

  /** The writer's own journal file. */
  class DeviceLog {
    var file: File

    constructor ()
      ensures file == []
    {
      file := [];
    }

    // The line is appended, and a file that has grown over both thresholds is compacted. `found` is what a compaction would find.
    method AppendLine(item: Item, len: nat, found: seq<Sidecar>)
      requires len > 0
      modifies this
      ensures var longer := old(file) + [Record(item, len)];
              file == if OverThreshold(longer) && NoneStops(found) then CompactedFile(longer, SnapshotOf(found)) else longer
    {
      file := file + [Record(item, len)];
      if Size(file) < SOFT_BYTES {
        return;
      }
      var entries := OwnEntryCount();
      if entries <= COMPACT_THRESHOLD {
        return;
      }
      var done := Compact(found);
    }

    method OwnEntryCount() returns (count: nat)
      ensures count == EntryCount(file)
    {
      count := 0;
      for k := 0 to |file|
        invariant count == EntryCount(file[..k])
      {
        assert file[..k + 1][..k] == file[..k];
        if file[k].Record? {
          count := count + 1;
        }
      }
      assert file[..|file|] == file;
    }

    // The snapshot loop over the sidecars and the replacement of the file under the next epoch, put off if a sidecar stops it.
    method Compact(found: seq<Sidecar>) returns (done: bool)
      modifies this
      ensures done <==> NoneStops(found)
      ensures file == if NoneStops(found) then CompactedFile(old(file), SnapshotOf(found)) else old(file)
    {
      var snapshot: seq<Line>, unreadable: nat := [], 0;
      for k := 0 to |found|
        invariant unreadable == 0 <==> NoneStops(found[..k])
        invariant unreadable == 0 ==> snapshot == SnapshotOf(found[..k])
      {
        var f := found[k];
        assert found[..k + 1] == found[..k] + [f] && f in found[..k + 1];
        assert NoneStops(found[..k + 1]) <==> NoneStops(found[..k]) && !Stops(f);
        if f.rev.Some? {
          snapshot := snapshot + [Record(Item(f.entity, f.rev.value), f.len)];
        } else if f.association {
          snapshot := snapshot + [Record(Item(f.entity, 0), f.len)];
        } else {
          unreadable := unreadable + 1;
        }
      }
      assert found[..|found|] == found;
      if unreadable > 0 {
        return false;
      }
      file := CompactedFile(file, snapshot);
      done := true;
    }
  }
}
