/**
 The journal between two devices, over all interleavings: the writer edits sidecars, appends the
 lines it owes and compacts, reading the sidecars one by one while edits go on; its file reaches the
 reader's copy at some later moment; the reader looks at the header of its copy and then, possibly
 after the copy was replaced, reads the lines.
 */
module JournalProtocol {
  import opened Wrappers
  import opened Journal

  // A line by the epoch of its file and its place there.
  datatype LineId = LineId(epoch: nat, index: nat)

  datatype Phase =
    | Idle
    | HeaderRead(epoch: nat, headerLength: nat, at: nat)  // `at`: the version of the file that was looked at

  // A compaction under way: the lines read so far; `base` is history, the sidecars when it began.
  datatype Gathering = Gathering(base: map<Entity, nat>, lines: seq<Line>)

  /**
   `versions` are all states the writer's file has had, the last one current; `replica` is the one
   the reader's copy holds. `owed` are edits whose line is still to be appended. `delivered` and
   `handed` are history: the items handed over, and how often line k of epoch e was.
   */
  datatype State = State(
    sidecars: map<Entity, nat>,
    clock: nat,
    owed: set<Item>,
    versions: seq<File>,
    compacting: Option<Gathering>,
    replica: nat,
    cursor: Cursor,
    phase: Phase,
    delivered: set<Item>,
    handed: map<LineId, nat>)

  datatype Step =
    | Edit(entity: Entity)                  // a local change: the sidecar is written, a line is owed
    | ApplyRemote(entity: Entity)           // a change from elsewhere: the sidecar is written, no line
    | Append(item: Item, len: nat)
    | BeginCompact                          // the journal lock is taken, which appends need too
    | Gather(entity: Entity, len: nat)      // one sidecar is read, as it is now
    | FinishCompact
    | AbandonCompact                        // a sidecar is unreadable: the file stays
    | Replicate(version: nat)
    | ReadHeader
    | ReadLines(saved: bool)

  function Current(s: State): File
    requires s.versions != []
  {
    s.versions[|s.versions| - 1]
  }

  function Init(): State {
    State(map[], 0, {}, [[]], None, 0, Cursor(0, 0), Idle, {}, map[])
  }

  // Every sidecar that was there when the compaction began has been read.
  predicate Complete(g: Gathering) {
    forall x <- g.base :: exists k :: 0 <= k < |g.lines| && g.lines[k].Record? && g.lines[k].item.entity == x
  }

  predicate Enabled(s: State, step: Step) {
    && s.versions != [] && s.replica < |s.versions|
    && match step
       case Edit(_) => true
       case ApplyRemote(_) => true
       case Append(item, len) => item in s.owed && len > 0 && s.compacting.None?
       case BeginCompact => s.compacting.None?
       case Gather(x, len) => s.compacting.Some? && x in s.sidecars && len > 0
       case FinishCompact => s.compacting.Some? && Complete(s.compacting.value)
       case AbandonCompact => s.compacting.Some?
       case Replicate(v) => s.replica <= v < |s.versions|
       case ReadHeader => s.phase.Idle?
       case ReadLines(_) => s.phase.HeaderRead?
  }

  function StartOfRead(s: State): nat
    requires s.phase.HeaderRead?
  {
    StartOf(s.cursor, s.phase.epoch, s.phase.headerLength)
  }

  function CountHanded(handed: map<LineId, nat>, line: LineId): nat {
    if line in handed then handed[line] else 0
  }

  // The lines a read hands over, by epoch and position in the file.
  function LinesRead(file: File, start: nat): set<LineId> {
    set k | 0 <= k < |file| && file[k].Record? && Position(file, k) >= start :: LineId(EpochOf(file), k)
  }

  function Next(s: State, step: Step): State
    requires Enabled(s, step)
  {
    match step
    case Edit(x) =>
      s.(sidecars := s.sidecars[x := s.clock + 1], clock := s.clock + 1, owed := s.owed + {Item(x, s.clock + 1)})
    case ApplyRemote(x) =>
      s.(sidecars := s.sidecars[x := s.clock + 1], clock := s.clock + 1)
    case Append(item, len) =>
      s.(owed := s.owed - {item}, versions := s.versions + [Current(s) + [Record(item, len)]])
    case BeginCompact =>
      s.(compacting := Some(Gathering(s.sidecars, [])))
    case Gather(x, len) =>
      var g := s.compacting.value;
      s.(compacting := Some(g.(lines := g.lines + [Record(Item(x, s.sidecars[x]), len)])))
    case FinishCompact =>
      s.(versions := s.versions + [CompactedFile(Current(s), s.compacting.value.lines)], compacting := None)
    case AbandonCompact =>
      s.(compacting := None)
    case Replicate(v) =>
      s.(replica := v)
    case ReadHeader =>
      var file := s.versions[s.replica];
      s.(phase := HeaderRead(EpochOf(file), HeaderLengthOf(file), s.replica))
    case ReadLines(saved) =>
      var file, start := s.versions[s.replica], StartOfRead(s);
      var lines := LinesRead(file, start);
      s.(delivered := s.delivered + set item <- RecordsFrom(file, start, |file|) :: item,
         cursor := Advance(s.cursor, s.phase.epoch, EndOffset(file, start), saved),
         phase := Idle,
         handed := s.handed + map line | line in lines :: CountHanded(s.handed, line) + 1)
  }

  predicate Legal(steps: seq<Step>)
    decreases |steps|, 0
  {
    steps == [] || (
      var k := |steps| - 1;
      Legal(steps[..k]) && Enabled(Run(steps[..k]), steps[k]))
  }

  function Run(steps: seq<Step>): State
    requires Legal(steps)
    decreases |steps|, 1
  {
    if steps == [] then Init() else Next(Run(steps[..|steps| - 1]), steps[|steps| - 1])
  }

  // ---- What it means not to lose an entry ----

  // The item, or a later state of the same entity, is among the items.
  predicate Covered(item: Item, items: set<Item>) {
    exists d <- items :: d.entity == item.entity && d.rev >= item.rev
  }

  function ItemsOf(file: File): set<Item> {
    set k | 0 <= k < |file| && file[k].Record? :: file[k].item
  }

  predicate AllCovered(items: set<Item>, seen: set<Item>) {
    forall i <- items :: Covered(i, seen)
  }

  // Every entry the writer had ever appended when this version was current.
  function EverAppended(versions: seq<File>, v: nat): set<Item>
    requires v < |versions|
  {
    set i, k | 0 <= i <= v && 0 <= k < |versions[i]| && versions[i][k].Record? :: versions[i][k].item
  }

  lemma CoveredTransitive(a: set<Item>, b: set<Item>, c: set<Item>)
    requires AllCovered(a, b) && AllCovered(b, c)
    ensures AllCovered(a, c)
  {
    forall i <- a ensures Covered(i, c) {
      var d :| d in b && d.entity == i.entity && d.rev >= i.rev;
      var e :| e in c && e.entity == d.entity && e.rev >= d.rev;
    }
  }

  // ---- The invariant ----

  // A version and a later one: the epoch does not go back, within an epoch lines are only added, nothing is dropped uncovered.
  predicate Succeeds(later: File, earlier: File) {
    && EpochOf(earlier) <= EpochOf(later)
    && (EpochOf(earlier) == EpochOf(later) ==> earlier <= later)
    && AllCovered(ItemsOf(earlier), ItemsOf(later))
  }

  predicate Chain(versions: seq<File>) {
    && (forall v :: 0 <= v < |versions| ==> WellFormed(versions[v]))
    && (forall i, j {:trigger Succeeds(versions[j], versions[i])} :: 0 <= i < j < |versions| ==> Succeeds(versions[j], versions[i]))
  }

  predicate Known(items: set<Item>, sidecars: map<Entity, nat>) {
    forall i <- items :: i.entity in sidecars && i.rev <= sidecars[i.entity]
  }

  // What a compaction under way has read is no older than what it found, and what it found covers the file.
  predicate Gathered(g: Gathering, file: File, sidecars: map<Entity, nat>) {
    && Known(ItemsOf(file), g.base)
    && (forall x <- g.base :: x in sidecars && g.base[x] <= sidecars[x])
    && (forall k :: 0 <= k < |g.lines| ==> g.lines[k].Record? && g.lines[k].len > 0 && GatheredLine(g.base, g.lines[k].item, sidecars))
  }

  predicate GatheredLine(base: map<Entity, nat>, item: Item, sidecars: map<Entity, nat>) {
    && item.entity in sidecars && item.rev <= sidecars[item.entity]
    && (item.entity in base ==> item.rev >= base[item.entity])
  }

  predicate FilesInv(s: State) {
    && s.versions != [] && s.replica < |s.versions|
    && Chain(s.versions)
    && Known(ItemsOf(Current(s)), s.sidecars)
    && Known(s.owed, s.sidecars)
    && (forall x <- s.sidecars :: s.sidecars[x] <= s.clock)
    && (s.compacting.Some? ==> Gathered(s.compacting.value, Current(s), s.sidecars))
  }

  predicate CursorInv(s: State)
    requires s.replica < |s.versions|
  {
    var file := s.versions[s.replica];
    && s.cursor.epoch <= EpochOf(file)
    && (s.cursor.epoch == EpochOf(file) ==>
          && s.cursor.offset <= Size(file)
          && forall k :: 0 <= k < |file| && file[k].Record? && Position(file, k) < s.cursor.offset ==> Covered(file[k].item, s.delivered))
  }

  predicate PhaseInv(s: State)
    requires s.replica < |s.versions|
  {
    s.phase.HeaderRead? ==>
      && s.phase.at <= s.replica
      && s.phase.epoch == EpochOf(s.versions[s.phase.at])
      && s.phase.headerLength == HeaderLengthOf(s.versions[s.phase.at])
      && s.cursor.epoch <= s.phase.epoch
  }

  // A line handed over is no newer than the copy, and a line of the copy's epoch is a record there.
  predicate HandedInv(s: State)
    requires s.replica < |s.versions|
  {
    forall line <- s.handed ::
      && s.handed[line] >= 1
      && line.epoch <= EpochOf(s.versions[s.replica])
      && (line.epoch == EpochOf(s.versions[s.replica]) ==>
            line.index < |s.versions[s.replica]| && s.versions[s.replica][line.index].Record?)
  }

  predicate Inv(s: State) {
    FilesInv(s) && CursorInv(s) && PhaseInv(s) && HandedInv(s)
  }

  lemma ItemsOfMember(file: File, k: nat)
    requires k < |file| && file[k].Record?
    ensures file[k].item in ItemsOf(file)
  {
  }

  lemma SucceedsTransitive(c: File, b: File, a: File)
    requires Succeeds(c, b) && Succeeds(b, a)
    ensures Succeeds(c, a)
  {
    CoveredTransitive(ItemsOf(a), ItemsOf(b), ItemsOf(c));
  }

  lemma AppendSucceeds(file: File, item: Item, len: nat)
    requires WellFormed(file) && len > 0
    ensures var longer := file + [Record(item, len)];
            && WellFormed(longer) && Succeeds(longer, file)
            && ItemsOf(longer) == ItemsOf(file) + {item}
  {
    var longer := file + [Record(item, len)];
    assert longer[|file|] == Record(item, len);
    forall i <- ItemsOf(file) ensures i in ItemsOf(longer) {
      var k :| 0 <= k < |file| && file[k].Record? && file[k].item == i;
      assert longer[k] == file[k];
    }
  }

  /** A snapshot whose lines were read at different moments covers the file it replaces. */
  lemma CompactSucceeds(file: File, g: Gathering, sidecars: map<Entity, nat>)
    requires WellFormed(file) && Gathered(g, file, sidecars) && Complete(g)
    ensures var compacted := CompactedFile(file, g.lines);
            WellFormed(compacted) && Succeeds(compacted, file) && Known(ItemsOf(compacted), sidecars)
  {
    var compacted := CompactedFile(file, g.lines);
    forall k | 0 < k < |compacted| ensures compacted[k] == g.lines[k - 1] {
    }
    forall i <- ItemsOf(file) ensures Covered(i, ItemsOf(compacted)) {
      var k :| 0 <= k < |g.lines| && g.lines[k].Record? && g.lines[k].item.entity == i.entity;
      assert compacted[k + 1] == g.lines[k];
      assert compacted[k + 1].item in ItemsOf(compacted);
    }
  }

  // Each entity of the file is found once, and what can be read of it is no older than the file has it.
  predicate FoundNoOlder(file: File, found: seq<Sidecar>) {
    && (forall i, j :: 0 <= i < j < |found| ==> found[i].entity != found[j].entity)
    && (forall i <- ItemsOf(file) :: exists k :: 0 <= k < |found| && found[k].entity == i.entity)
    && (forall i <- ItemsOf(file), f <- found :: f.entity == i.entity && f.rev.Some? ==> f.rev.value >= i.rev)
  }

  lemma SnapshotItems(file: File, found: seq<Sidecar>)
    ensures forall i :: i in ItemsOf(CompactedFile(file, SnapshotOf(found))) <==> exists f <- found :: ItemFound(f) == i
  {
    var compacted := CompactedFile(file, SnapshotOf(found));
    forall k | 0 <= k < |found| ensures compacted[k + 1] == Record(ItemFound(found[k]), found[k].len) && ItemFound(found[k]) in ItemsOf(compacted) {
      assert compacted[k + 1].Record?;
    }
  }

  /** An unreadable association drops what the file says of it: a compaction covers the file it replaces exactly if the file has no entry of an association that is found unreadable. */
  lemma CompactCoversIff(file: File, found: seq<Sidecar>)
    requires FoundNoOlder(file, found) && forall i <- ItemsOf(file) :: i.rev > 0
    ensures AllCovered(ItemsOf(file), ItemsOf(CompactedFile(file, SnapshotOf(found))))
            <==> forall i <- ItemsOf(file), f <- found :: f.entity == i.entity ==> f.rev.Some?
  {
    var items := ItemsOf(CompactedFile(file, SnapshotOf(found)));
    SnapshotItems(file, found);
    forall i <- ItemsOf(file) ensures Covered(i, items) <==> forall f <- found :: f.entity == i.entity ==> f.rev.Some? {
      var k :| 0 <= k < |found| && found[k].entity == i.entity;
      assert ItemFound(found[k]) in items;
      forall f <- found | f.entity == i.entity ensures f == found[k] {
      }
    }
  }

  lemma SucceedsItself(file: File)
    ensures Succeeds(file, file)
  {
    forall i <- ItemsOf(file) ensures Covered(i, ItemsOf(file)) {
    }
  }

  lemma ChainExtends(versions: seq<File>, file: File)
    requires versions != [] && Chain(versions)
    requires WellFormed(file) && Succeeds(file, versions[|versions| - 1])
    ensures Chain(versions + [file])
  {
    var longer := versions + [file];
    forall i, j | 0 <= i <= j < |longer| ensures Succeeds(longer[j], longer[i]) {
      if i == j {
        SucceedsItself(longer[i]);
      } else if j == |versions| {
        SucceedsTransitive(file, versions[|versions| - 1], versions[i]);
      }
    }
  }

  lemma NewVersionKeepsFilesInv(s: State, file: File, owed: set<Item>)
    requires FilesInv(s)
    requires WellFormed(file) && Succeeds(file, Current(s))
    requires owed <= s.owed && Known(ItemsOf(file), s.sidecars)
    ensures FilesInv(s.(versions := s.versions + [file], owed := owed, compacting := None))
  {
    ChainExtends(s.versions, file);
  }

  lemma WriteKeepsFilesInv(s: State, x: Entity, owed: set<Item>)
    requires FilesInv(s)
    requires forall i <- owed :: i in s.owed || i == Item(x, s.clock + 1)
    ensures FilesInv(s.(sidecars := s.sidecars[x := s.clock + 1], clock := s.clock + 1, owed := owed))
  {
    var sidecars := s.sidecars[x := s.clock + 1];
    assert Known(ItemsOf(Current(s)), sidecars);
    assert Known(owed, sidecars);
    if s.compacting.Some? {
      var g := s.compacting.value;
      forall k | 0 <= k < |g.lines| ensures GatheredLine(g.base, g.lines[k].item, sidecars) {
      }
    }
  }

  lemma GatherKeepsFilesInv(s: State, x: Entity, len: nat)
    requires FilesInv(s) && Enabled(s, Gather(x, len))
    ensures FilesInv(Next(s, Gather(x, len)))
  {
    var g := s.compacting.value;
    var lines := g.lines + [Record(Item(x, s.sidecars[x]), len)];
    forall k | 0 <= k < |lines| ensures lines[k].Record? && lines[k].len > 0 && GatheredLine(g.base, lines[k].item, s.sidecars) {
    }
  }

  lemma AppendKeepsFilesInv(s: State, item: Item, len: nat)
    requires FilesInv(s) && Enabled(s, Append(item, len))
    ensures FilesInv(Next(s, Append(item, len)))
  {
    AppendSucceeds(Current(s), item, len);
    NewVersionKeepsFilesInv(s, Current(s) + [Record(item, len)], s.owed - {item});
  }

  lemma FinishKeepsFilesInv(s: State)
    requires FilesInv(s) && Enabled(s, FinishCompact)
    ensures FilesInv(Next(s, FinishCompact))
  {
    CompactSucceeds(Current(s), s.compacting.value, s.sidecars);
    NewVersionKeepsFilesInv(s, CompactedFile(Current(s), s.compacting.value.lines), s.owed);
  }

  lemma BeginKeepsFilesInv(s: State)
    requires FilesInv(s) && Enabled(s, BeginCompact)
    ensures FilesInv(Next(s, BeginCompact))
  {
    assert Gathered(Gathering(s.sidecars, []), Current(s), s.sidecars);
  }

  lemma OtherStepKeepsFilesInv(s: State, step: Step)
    requires FilesInv(s) && Enabled(s, step)
    requires step.AbandonCompact? || step.Replicate? || step.ReadHeader? || step.ReadLines?
    ensures FilesInv(Next(s, step))
  {
    var t := Next(s, step);
    assert t.versions == s.versions && t.owed == s.owed && t.sidecars == s.sidecars && t.clock == s.clock;
  }

  lemma StepKeepsFilesInv(s: State, step: Step)
    requires FilesInv(s) && Enabled(s, step)
    ensures FilesInv(Next(s, step))
  {
    match step {
      case Edit(x) =>
        WriteKeepsFilesInv(s, x, s.owed + {Item(x, s.clock + 1)});
      case ApplyRemote(x) =>
        WriteKeepsFilesInv(s, x, s.owed);
      case Append(item, len) =>
        AppendKeepsFilesInv(s, item, len);
      case BeginCompact =>
        BeginKeepsFilesInv(s);
      case Gather(x, len) =>
        GatherKeepsFilesInv(s, x, len);
      case FinishCompact =>
        FinishKeepsFilesInv(s);
      case _ =>
        OtherStepKeepsFilesInv(s, step);
    }
  }

  // ---- One read ----

  // The reader compares an epoch seen before the file was replaced with the epoch it already knows.
  predicate Stale(s: State)
    requires s.phase.HeaderRead? && s.replica < |s.versions|
  {
    s.phase.epoch == s.cursor.epoch && s.phase.epoch < EpochOf(s.versions[s.replica])
  }

  lemma {:induction false} RecordsFromComplete(file: File, start: nat, k: nat, i: nat)
    requires i < k <= |file| && file[i].Record? && Position(file, i) >= start
    ensures file[i].item in RecordsFrom(file, start, k)
  {
    if i < k - 1 {
      RecordsFromComplete(file, start, k - 1, i);
    }
  }

  // All records follow the header.
  lemma RecordsFollowHeader(file: File, k: nat)
    requires WellFormed(file) && EpochOf(file) > 0 && k < |file| && file[k].Record?
    ensures Position(file, k) >= HeaderLength(EpochOf(file))
  {
    PositionMonotone(file, 1, k);
    assert Position(file, 1) == Position(file, 0) + file[0].len;
  }

  // With a header length from this epoch or an earlier one, every record starts where the reader does or after.
  lemma RecordsFollowEarlierHeader(file: File, earlier: File, k: nat)
    requires WellFormed(file) && WellFormed(earlier) && EpochOf(earlier) <= EpochOf(file) && EpochOf(file) > 0
    requires k < |file| && file[k].Record?
    ensures Position(file, k) >= HeaderLengthOf(earlier)
  {
    RecordsFollowHeader(file, k);
    DigitsMonotone(EpochOf(earlier), EpochOf(file));
  }

  lemma ReadCoversRecord(s: State, saved: bool, k: nat)
    requires s.replica < |s.versions| && CursorInv(s) && PhaseInv(s) && Chain(s.versions)
    requires Enabled(s, ReadLines(saved)) && !Stale(s)
    requires k < |s.versions[s.replica]| && s.versions[s.replica][k].Record?
    ensures Covered(s.versions[s.replica][k].item, Next(s, ReadLines(saved)).delivered)
  {
    var file, start := s.versions[s.replica], StartOfRead(s);
    var delivered := Next(s, ReadLines(saved)).delivered;
    assert EpochOf(s.versions[s.phase.at]) <= EpochOf(file) by {
      assert Succeeds(file, s.versions[s.phase.at]);
    }
    if s.phase.epoch != s.cursor.epoch {
      RecordsFollowEarlierHeader(file, s.versions[s.phase.at], k);
    }
    if Position(file, k) >= start {
      RecordsFromComplete(file, start, |file|, k);
      assert file[k].item in delivered;
    } else {
      assert Covered(file[k].item, s.delivered);
      assert s.delivered <= delivered;
    }
  }

  // A read that is not stale leaves every record of the file it read covered.
  lemma ReadCoversFile(s: State, saved: bool)
    requires Inv(s) && Enabled(s, ReadLines(saved)) && !Stale(s)
    ensures AllCovered(ItemsOf(s.versions[s.replica]), Next(s, ReadLines(saved)).delivered)
  {
    var file := s.versions[s.replica];
    forall i <- ItemsOf(file) ensures Covered(i, Next(s, ReadLines(saved)).delivered) {
      var k :| 0 <= k < |file| && file[k].Record? && file[k].item == i;
      ReadCoversRecord(s, saved, k);
    }
  }

  lemma ReadKeepsCursorInv(s: State, saved: bool)
    requires Inv(s) && Enabled(s, ReadLines(saved))
    ensures CursorInv(Next(s, ReadLines(saved)))
  {
    var t := Next(s, ReadLines(saved));
    var file := s.versions[s.replica];
    assert Succeeds(file, s.versions[s.phase.at]);
    if t.cursor.epoch == EpochOf(file) {
      assert s.phase.epoch == EpochOf(file);
      if s.phase.epoch != s.cursor.epoch {
        PositionMonotone(file, 1, |file|);
        assert Position(file, 1) == Position(file, 0) + file[0].len;
        assert s.versions[s.phase.at][0] == file[0];
      }
      ReadCoversFile(s, saved);
      forall k | 0 <= k < |file| && file[k].Record? ensures Covered(file[k].item, t.delivered) {
        ItemsOfMember(file, k);
      }
    }
  }

  lemma ReplicateKeepsCursorInv(s: State, v: nat)
    requires Inv(s) && Enabled(s, Replicate(v))
    ensures CursorInv(Next(s, Replicate(v))) && HandedInv(Next(s, Replicate(v)))
  {
    var before, after := s.versions[s.replica], s.versions[v];
    assert Succeeds(after, before);
    if s.cursor.epoch == EpochOf(after) {
      assert before <= after;
      PositionOfPrefix(before, after, |before|);
      PositionMonotone(after, |before|, |after|);
      forall k | 0 <= k < |after| && after[k].Record? && Position(after, k) < s.cursor.offset
        ensures Covered(after[k].item, s.delivered)
      {
        if k >= |before| {
          PositionMonotone(after, |before|, k);
        } else {
          PositionOfPrefix(before, after, k);
        }
      }
    }
  }

  lemma ReadKeepsHandedInv(s: State, saved: bool)
    requires Inv(s) && Enabled(s, ReadLines(saved))
    ensures HandedInv(Next(s, ReadLines(saved)))
  {
    var lines := LinesRead(s.versions[s.replica], StartOfRead(s));
    forall line <- Next(s, ReadLines(saved)).handed ensures line in lines || line in s.handed {
    }
  }

  lemma InitInv()
    ensures Inv(Init())
  {
    assert ItemsOf([]) == {};
  }

  // The steps that neither read lines nor bring a new copy leave the reader's facts alone.
  lemma WriterStepKeepsReader(s: State, step: Step)
    requires Inv(s) && Enabled(s, step) && !step.ReadLines? && !step.Replicate?
    ensures CursorInv(Next(s, step)) && HandedInv(Next(s, step))
  {
    var t := Next(s, step);
    assert t.versions[t.replica] == s.versions[s.replica];
    assert t.cursor == s.cursor && t.delivered == s.delivered && t.handed == s.handed;
  }

  lemma StepKeepsPhaseInv(s: State, step: Step)
    requires Inv(s) && Enabled(s, step)
    ensures PhaseInv(Next(s, step))
  {
  }

  lemma StepKeepsInv(s: State, step: Step)
    requires Inv(s) && Enabled(s, step)
    ensures Inv(Next(s, step))
  {
    StepKeepsFilesInv(s, step);
    StepKeepsPhaseInv(s, step);
    match step
    case ReadLines(saved) =>
      ReadKeepsCursorInv(s, saved);
      ReadKeepsHandedInv(s, saved);
    case Replicate(v) =>
      ReplicateKeepsCursorInv(s, v);
    case _ =>
      WriterStepKeepsReader(s, step);
  }

  lemma {:induction false} RunInv(steps: seq<Step>)
    requires Legal(steps)
    ensures Inv(Run(steps))
  {
    if steps == [] {
      InitInv();
    } else {
      var k := |steps| - 1;
      RunInv(steps[..k]);
      StepKeepsInv(Run(steps[..k]), steps[k]);
    }
  }

  // ---- Main results ----

  // Everything the writer had appended when the reader's copy was current has been handed over, or a later state of its entity has.
  predicate NothingLost(s: State)
    requires s.replica < |s.versions|
  {
    AllCovered(EverAppended(s.versions, s.replica), s.delivered)
  }

  lemma EverAppendedCovered(versions: seq<File>, v: nat)
    requires v < |versions| && Chain(versions)
    ensures AllCovered(EverAppended(versions, v), ItemsOf(versions[v]))
  {
    var items := ItemsOf(versions[v]);
    forall i <- EverAppended(versions, v) ensures Covered(i, items) {
      var w, k :| 0 <= w <= v && 0 <= k < |versions[w]| && versions[w][k].Record? && versions[w][k].item == i;
      ItemsOfMember(versions[w], k);
      if w < v {
        assert Succeeds(versions[v], versions[w]);
      }
    }
  }

  lemma ReadLosesNothing(s: State, saved: bool)
    requires Inv(s) && Enabled(s, ReadLines(saved)) && !Stale(s)
    ensures NothingLost(Next(s, ReadLines(saved)))
  {
    EverAppendedCovered(s.versions, s.replica);
    ReadCoversFile(s, saved);
    CoveredTransitive(EverAppended(s.versions, s.replica), ItemsOf(s.versions[s.replica]), Next(s, ReadLines(saved)).delivered);
  }

  // Each record before the byte that the read seeks to was delivered, or is superseded by one at or after that byte.
  predicate SkippedAreCovered(s: State)
    requires s.phase.HeaderRead? && s.replica < |s.versions|
  {
    var file, start := s.versions[s.replica], StartOfRead(s);
    var behind := set item <- RecordsFrom(file, start, |file|) :: item;
    forall k :: 0 <= k < |file| && file[k].Record? && Position(file, k) < start ==> Covered(file[k].item, s.delivered + behind)
  }

  lemma SkippedCoveredLosesNothing(s: State, saved: bool)
    requires Inv(s) && Enabled(s, ReadLines(saved)) && SkippedAreCovered(s)
    ensures NothingLost(Next(s, ReadLines(saved)))
  {
    var file, delivered := s.versions[s.replica], Next(s, ReadLines(saved)).delivered;
    forall i <- ItemsOf(file) ensures Covered(i, delivered) {
      var k :| 0 <= k < |file| && file[k].Record? && file[k].item == i;
      if Position(file, k) >= StartOfRead(s) {
        RecordsFromComplete(file, StartOfRead(s), |file|, k);
        assert i in delivered;
      }
    }
    EverAppendedCovered(s.versions, s.replica);
    CoveredTransitive(EverAppended(s.versions, s.replica), ItemsOf(file), delivered);
  }

  /**
   In every run, however edits, appends, compactions and copies interleave with it, a read loses
   nothing exactly if its copy was not compacted since the cursor's epoch was seen in the header, or
   all records that it then skips were delivered or are superseded by those it reads.
   */
  lemma NoLossIff(steps: seq<Step>, saved: bool)
    requires Legal(steps) && Enabled(Run(steps), ReadLines(saved))
    ensures NothingLost(Next(Run(steps), ReadLines(saved))) <==> !Stale(Run(steps)) || SkippedAreCovered(Run(steps))
  {
    var s := Run(steps);
    RunInv(steps);
    if !Stale(s) {
      ReadLosesNothing(s, saved);
    } else if SkippedAreCovered(s) {
      SkippedCoveredLosesNothing(s, saved);
    } else {
      var file, delivered := s.versions[s.replica], Next(s, ReadLines(saved)).delivered;
      var k :| 0 <= k < |file| && file[k].Record? && Position(file, k) < StartOfRead(s) && !Covered(file[k].item, delivered);
      assert file[k].item in EverAppended(s.versions, s.replica);
    }
  }

  lemma RunChain(steps: seq<Step>)
    requires Legal(steps)
    ensures Run(steps).versions != [] && Chain(Run(steps).versions)
  {
    RunInv(steps);
  }

  predicate Behind(s: State) {
    && s.replica < |s.versions| && s.cursor.epoch < EpochOf(s.versions[s.replica])
    && (s.phase.HeaderRead? ==> s.cursor.epoch < s.phase.epoch)
  }

  lemma StaysBehind(s: State, step: Step)
    requires s.versions != [] && Chain(s.versions) && Behind(s) && Enabled(s, step) && !step.ReadLines?
    ensures Behind(Next(s, step))
  {
    if step.Replicate? && step.version != s.replica {
      assert Succeeds(s.versions[step.version], s.versions[s.replica]);
    }
  }

  // Between reads the cursor stays put, so a cursor behind its copy's epoch stays behind.
  lemma {:induction false} BehindUntilNextRead(steps: seq<Step>, i: nat)
    requires Legal(steps) && i <= |steps| && Legal(steps[..i]) && Behind(Run(steps[..i]))
    requires forall k :: i <= k < |steps| ==> !steps[k].ReadLines?
    ensures Behind(Run(steps))
  {
    if i == |steps| {
      assert steps[..i] == steps;
    } else {
      var front := steps[..|steps| - 1];
      assert front[..i] == steps[..i];
      BehindUntilNextRead(front, i);
      RunChain(front);
      StaysBehind(Run(front), steps[|steps| - 1]);
    }
  }

  lemma {:induction false} LegalPrefix(steps: seq<Step>, k: nat)
    requires Legal(steps) && k <= |steps|
    ensures Legal(steps[..k])
    ensures k < |steps| ==> Enabled(Run(steps[..k]), steps[k]) && Legal(steps[..k + 1]) && Run(steps[..k + 1]) == Next(Run(steps[..k]), steps[k])
  {
    var n := |steps| - 1;
    if k == |steps| {
      assert steps[..k] == steps;
    } else if k == n {
      assert steps[..k + 1] == steps;
    } else {
      LegalPrefix(steps[..n], k);
      assert steps[..n][..k] == steps[..k] && steps[..n][..k + 1] == steps[..k + 1];
    }
  }

  lemma StaleLeavesBehind(s: State, saved: bool)
    requires Inv(s) && Enabled(s, ReadLines(saved)) && Stale(s)
    ensures Behind(Next(s, ReadLines(saved)))
  {
  }

  lemma BehindLosesNothing(steps: seq<Step>, saved: bool)
    requires Legal(steps) && Enabled(Run(steps), ReadLines(saved)) && Behind(Run(steps))
    ensures NothingLost(Next(Run(steps), ReadLines(saved)))
  {
    NoLossIff(steps, saved);
  }

  lemma BehindAfterStale(steps: seq<Step>, i: nat)
    requires Legal(steps) && i < |steps| && steps[i].ReadLines?
    requires Legal(steps[..i]) && Run(steps[..i]).phase.HeaderRead? && Run(steps[..i]).replica < |Run(steps[..i]).versions|
    requires Stale(Run(steps[..i]))
    ensures Legal(steps[..i + 1]) && Behind(Run(steps[..i + 1]))
  {
    LegalPrefix(steps, i);
    RunInv(steps[..i]);
    StaleLeavesBehind(Run(steps[..i]), steps[i].saved);
  }

  /** After a stale read, the next one is not stale: whatever the first skipped, the second makes good. */
  lemma StaleReadHeals(steps: seq<Step>, i: nat, j: nat)
    requires Legal(steps) && i < j < |steps| && steps[i].ReadLines? && steps[j].ReadLines?
    requires forall k :: i < k < j ==> !steps[k].ReadLines?
    requires Legal(steps[..i]) && Run(steps[..i]).phase.HeaderRead? && Run(steps[..i]).replica < |Run(steps[..i]).versions|
    requires Stale(Run(steps[..i]))
    ensures Legal(steps[..j + 1]) && Run(steps[..j + 1]).replica < |Run(steps[..j + 1]).versions|
    ensures NothingLost(Run(steps[..j + 1]))
  {
    BehindAfterStale(steps, i);
    LegalPrefix(steps, j);
    assert steps[..j][..i + 1] == steps[..i + 1];
    BehindUntilNextRead(steps[..j], i + 1);
    BehindLosesNothing(steps[..j], steps[j].saved);
  }

  // ---- How often a line is handed over ----

  predicate RepeatsNothing(s: State)
    requires s.phase.HeaderRead? && s.replica < |s.versions|
  {
    forall line <- LinesRead(s.versions[s.replica], StartOfRead(s)) :: line !in s.handed
  }

  // What was handed over of the copy's epoch, if anything, lies before the cursor, and the header seen is of the cursor's epoch.
  predicate CursorPast(s: State)
    requires s.phase.HeaderRead? && s.replica < |s.versions|
  {
    var file := s.versions[s.replica];
    forall line <- s.handed :: line.epoch == EpochOf(file) ==>
      s.phase.epoch == s.cursor.epoch && line.index < |file| && Position(file, line.index) < s.cursor.offset
  }

  /** A read hands over no line again exactly if the cursor is past all that was handed over of the copy's epoch and the header seen is of the cursor's. */
  lemma RepeatsNothingIff(s: State, saved: bool)
    requires Inv(s) && Enabled(s, ReadLines(saved))
    ensures RepeatsNothing(s) <==> CursorPast(s)
  {
    var file, start := s.versions[s.replica], StartOfRead(s);
    assert EpochOf(s.versions[s.phase.at]) <= EpochOf(file) by {
      assert s.phase.at < s.replica ==> Succeeds(file, s.versions[s.phase.at]);
    }
    forall line <- s.handed | line.epoch == EpochOf(file)
      ensures line in LinesRead(file, start) <==> s.phase.epoch != s.cursor.epoch || Position(file, line.index) >= s.cursor.offset
    {
      if s.phase.epoch != s.cursor.epoch {
        RecordsFollowEarlierHeader(file, s.versions[s.phase.at], line.index);
      }
    }
  }

  predicate OnceEach(s: State) {
    forall line <- s.handed :: s.handed[line] == 1
  }

  lemma ReadKeepsOnceEachIff(s: State, saved: bool)
    requires Inv(s) && Enabled(s, ReadLines(saved))
    ensures OnceEach(Next(s, ReadLines(saved))) <==> OnceEach(s) && RepeatsNothing(s)
  {
    var t, lines := Next(s, ReadLines(saved)), LinesRead(s.versions[s.replica], StartOfRead(s));
    forall line <- t.handed
      ensures t.handed[line] == CountHanded(s.handed, line) + if line in lines then 1 else 0
    {
    }
    forall line <- s.handed ensures line in t.handed {
    }
    forall line <- lines ensures line in t.handed {
    }
  }

  lemma StepKeepsOnceEachIff(s: State, step: Step)
    requires Inv(s) && Enabled(s, step)
    ensures OnceEach(Next(s, step)) <==> OnceEach(s) && (step.ReadLines? ==> CursorPast(s))
  {
    if step.ReadLines? {
      ReadKeepsOnceEachIff(s, step.saved);
      RepeatsNothingIff(s, step.saved);
    } else {
      assert Next(s, step).handed == s.handed;
    }
  }

  // At every read of the run the cursor was past what had been handed over.
  predicate CursorAlwaysPast(steps: seq<Step>)
    requires Legal(steps)
  {
    steps == [] || (
      var k := |steps| - 1;
      CursorAlwaysPast(steps[..k]) && (steps[k].ReadLines? ==> CursorPast(Run(steps[..k]))))
  }

  /** In every run no line of an epoch was handed over twice exactly if at every read the cursor was past what had been. */
  lemma {:induction false} AtMostOncePerEpochIff(steps: seq<Step>)
    requires Legal(steps)
    ensures OnceEach(Run(steps)) <==> CursorAlwaysPast(steps)
  {
    if steps != [] {
      var k := |steps| - 1;
      AtMostOncePerEpochIff(steps[..k]);
      RunInv(steps[..k]);
      StepKeepsOnceEachIff(Run(steps[..k]), steps[k]);
    }
  }

  // The cursor is past what was handed over of the copy's epoch.
  predicate Recorded(s: State)
    requires s.replica < |s.versions|
  {
    var file := s.versions[s.replica];
    forall line <- s.handed :: line.epoch == EpochOf(file) ==>
      s.cursor.epoch == line.epoch && line.index < |file| && Position(file, line.index) < s.cursor.offset
  }

  predicate SavesItsEpoch(s: State, saved: bool)
    requires s.phase.HeaderRead? && s.replica < |s.versions|
  {
    saved && s.phase.epoch == EpochOf(s.versions[s.replica])
  }

  /** A read that hands lines over leaves the cursor past them exactly if its cursor is saved and its copy was not compacted behind the header. */
  lemma ReadRecordsIff(s: State, saved: bool)
    requires Inv(s) && Enabled(s, ReadLines(saved)) && LinesRead(s.versions[s.replica], StartOfRead(s)) != {}
    ensures Recorded(Next(s, ReadLines(saved))) <==> SavesItsEpoch(s, saved)
  {
    var file, start, t := s.versions[s.replica], StartOfRead(s), Next(s, ReadLines(saved));
    if SavesItsEpoch(s, saved) {
      SavedReadRecords(s, saved);
    } else {
      var one :| one in LinesRead(file, start);
      assert one in t.handed;
      PositionMonotone(file, one.index, |file|);
      HeaderIsNoNewer(s);
    }
  }

  lemma HeaderIsNoNewer(s: State)
    requires Inv(s) && s.phase.HeaderRead?
    ensures s.phase.epoch <= EpochOf(s.versions[s.replica])
  {
    var file := s.versions[s.replica];
    assert s.phase.at < s.replica ==> Succeeds(file, s.versions[s.phase.at]);
  }

  lemma SavedReadRecords(s: State, saved: bool)
    requires Inv(s) && Enabled(s, ReadLines(saved)) && LinesRead(s.versions[s.replica], StartOfRead(s)) != {} && SavesItsEpoch(s, saved)
    ensures Recorded(Next(s, ReadLines(saved)))
  {
    var file, start, t := s.versions[s.replica], StartOfRead(s), Next(s, ReadLines(saved));
    var one :| one in LinesRead(file, start);
    PositionMonotone(file, one.index, |file|);
    forall line <- t.handed | line.epoch == EpochOf(file) ensures line.index < |file| && Position(file, line.index) < t.cursor.offset {
      PositionMonotone(file, line.index, |file|);
    }
  }

  lemma ReadKeepsRecorded(s: State, saved: bool)
    requires Inv(s) && Enabled(s, ReadLines(saved)) && Recorded(s) && SavesItsEpoch(s, saved)
    ensures Recorded(Next(s, ReadLines(saved)))
  {
    if LinesRead(s.versions[s.replica], StartOfRead(s)) == {} {
      assert Next(s, ReadLines(saved)).handed == s.handed;
    } else {
      ReadRecordsIff(s, saved);
    }
  }

  lemma ReplicateKeepsRecorded(s: State, v: nat)
    requires Inv(s) && Enabled(s, Replicate(v)) && Recorded(s)
    ensures Recorded(Next(s, Replicate(v)))
  {
    var before, after := s.versions[s.replica], s.versions[v];
    if v != s.replica {
      assert Succeeds(after, before);
      forall line <- s.handed | line.epoch == EpochOf(after) ensures Position(after, line.index) < s.cursor.offset && line.index < |after| {
        PositionOfPrefix(before, after, line.index);
      }
    }
  }

  // Every read of the run saved its cursor and saw in the header the epoch of the lines it read.
  predicate ReadsSave(steps: seq<Step>)
    requires Legal(steps)
  {
    steps == [] || (
      var k := |steps| - 1;
      ReadsSave(steps[..k]) && (steps[k].ReadLines? ==> SavesItsEpoch(Run(steps[..k]), steps[k].saved)))
  }

  /** So in every run whose reads do both, no line of an epoch is handed over twice. */
  lemma {:induction false} SavingReadsRepeatNothing(steps: seq<Step>)
    requires Legal(steps) && ReadsSave(steps)
    ensures Run(steps).replica < |Run(steps).versions| && Recorded(Run(steps))
    ensures CursorAlwaysPast(steps) && OnceEach(Run(steps))
  {
    if steps != [] {
      var k := |steps| - 1;
      SavingReadsRepeatNothing(steps[..k]);
      RunInv(steps[..k]);
      RunInv(steps);
      var s := Run(steps[..k]);
      match steps[k]
      case ReadLines(saved) => ReadKeepsRecorded(s, saved);
      case Replicate(v) => ReplicateKeepsRecorded(s, v);
      case _ => assert Run(steps).versions[s.replica] == s.versions[s.replica];
    }
    AtMostOncePerEpochIff(steps);
  }
}
