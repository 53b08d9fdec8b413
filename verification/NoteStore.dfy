/** One note's directory on one device, and the program's append to it. */
module NoteStore {
  import opened Wrappers
  import opened VersionVectors
  import opened NoteLog
  import opened Compaction
  import opened Replication

  lemma HeadsOfUpdate(files: seq<Log>, d: Device, log: Log, h: Entry)
    requires d < |files| && h in Heads(files[d := log])
    ensures h in Heads(files) || IsLast(log, h)
  {
    HeadsMembers(files[d := log], h);
    HeadsMembers(files, h);
    var t :| 0 <= t < |files| && IsLast(files[d := log][t], h);
    assert t != d ==> files[d := log][t] == files[t];
  }

  lemma AppendEndsWith(log: Log, e: Entry)
    ensures AppendTo(log, e) != [] && AppendTo(log, e)[|AppendTo(log, e)| - 1] == e
  {
  }

  // Every head stays zero-free, so the append's own read back finds a winner.
  lemma AppendKeepsZeroFree(files: seq<Log>, d: Device, op: Op, now: Time)
    requires d < |files| && forall h <- Heads(files) :: ZeroFree(h.vv)
    ensures var e := NewEntry(files, d, op, now);
            forall h <- Heads(files[d := AppendTo(files[d], e)]) :: ZeroFree(h.vv)
  {
    var e := NewEntry(files, d, op, now);
    JoinAllZeroFree(Heads(files));
    forall h <- Heads(files[d := AppendTo(files[d], e)]) ensures ZeroFree(h.vv) {
      HeadsOfUpdate(files, d, AppendTo(files[d], e), h);
      AppendEndsWith(files[d], e);
    }
  }

  datatype Answer = Stored(note: Note) | NotFound | CorruptedData

  // The logs as they are read: a file that cannot be parsed is left out, which a log without entries amounts to.
  function Readable(files: seq<Option<Log>>): (logs: seq<Log>)
    ensures |logs| == |files|
  {
    seq(|files|, i requires 0 <= i < |files| => if files[i].Some? then files[i].value else [])
  }

  /** The log files of one note as one device holds them, its own among them; None is a file that cannot be parsed. */
  class NoteDirectory {
    const device: Device
    var files: seq<Option<Log>>

    ghost predicate Valid()
      reads this
    {
      device < |files| && forall h <- Heads(Readable(files)) :: ZeroFree(h.vv)
    }

    constructor (device: Device, devices: nat)
      requires device < devices
      ensures Valid() && this.device == device && files == seq(devices, _ => Some([]))
    {
      this.device := device;
      files := seq(devices, _ => Some([]));
      new;
      forall h ensures h !in Heads(Readable(files)) {
        HeadsMembers(Readable(files), h);
      }
    }

    /**
     Reads, joins, bumps, appends, compacts when the own log is long, and reads back. With an unreadable
     own log nothing is written; a note that has no content anywhere is written but not found.
     */
    method AppendNoteOp(op: Op, now: Time) returns (answer: Answer)
      requires Valid()
      modifies this
      ensures Valid()
      ensures old(files)[device].None? ==> answer == CorruptedData && files == old(files)
      ensures old(files)[device].Some? ==>
                var logs := Readable(old(files));
                && files == old(files)[device := Some(AppendTo(logs[device], NewEntry(logs, device, op, now)))]
                && Mergeable(Readable(files))
                && answer == match Merge(Readable(files)).note case Some(note) => Stored(note) case None => NotFound
    {
      ghost var before := Readable(files);
      ZeroFreeHeadsMerge(before);
      AppendKeepsZeroFree(before, device, op, now);
      var visible := MergeByLoops(Readable(files));
      var vv := Increment(visible.vv, device);
      if files[device].None? {
        return CorruptedData;
      }
      var log := files[device].value + [Entry(vv, now, device, op)];
      if |log| > NOTE_LOG_COMPACT_THRESHOLD {
        log := Compact(log);
      }
      files := files[device := Some(log)];
      assert Readable(files) == before[device := log];
      ZeroFreeHeadsMerge(Readable(files));
      var merged := MergeByLoops(Readable(files));
      answer := match merged.note case Some(note) => Stored(note) case None => NotFound;
    }

    // Another device's log file, replaced by a copy that arrived, readable or not.
    method ReceiveLog(owner: Device, log: Option<Log>)
      requires Valid() && owner < |files| && (log.Some? && log.value != [] ==> ZeroFree(log.value[|log.value| - 1].vv))
      modifies this
      ensures Valid() && files == old(files)[owner := log]
    {
      ghost var before, arrived := Readable(files), if log.Some? then log.value else [];
      files := files[owner := log];
      assert Readable(files) == before[owner := arrived];
      forall h <- Heads(before[owner := arrived]) ensures ZeroFree(h.vv) {
        HeadsOfUpdate(before, owner, arrived, h);
      }
    }
  }
}
