/**
 Devices replicating one note's logs: the transition system of appends, compactions and file
 copies, and what holds in every run of it.
 */
module Replication {
  import opened Wrappers
  import opened VersionVectors
  import opened NoteLog
  import opened Compaction

  // An own log longer than this is compacted as part of the append.
  const NOTE_LOG_COMPACT_THRESHOLD: nat := 256

  /**
   `disk[d][t]` is the file with device t's log as device d holds it; it is all the program has.
   The other components are history, read by no step's effect on the disk: `hist[t]` is
   everything t ever appended, `have[d][t]` how much of it `disk[d][t]` reflects, and
   `seen[t][i]` the row `have[t]` at the moment t appended its entry i.
   */
  datatype System = System(
    disk: seq<seq<Log>>,
    hist: seq<Log>,
    have: seq<seq<nat>>,
    seen: seq<seq<seq<nat>>>)

  datatype Step =
    | Write(d: Device, op: Op, now: Time)
    | CompactOwn(d: Device)
    | CopyLog(from: Device, to: Device, owner: Device)

  predicate Shaped(s: System) {
    var n := |s.disk|;
    && |s.hist| == n && |s.have| == n && |s.seen| == n
    && (forall d :: 0 <= d < n ==> |s.disk[d]| == n && |s.have[d]| == n && |s.seen[d]| == |s.hist[d]|)
    && (forall d, i :: 0 <= d < n && 0 <= i < |s.seen[d]| ==> |s.seen[d][i]| == n)
    && (forall d, t :: 0 <= d < n && 0 <= t < n ==> s.have[d][t] <= |s.hist[t]|)
  }

  function Init(n: nat): (s: System)
    ensures Shaped(s)
  {
    System(
      seq(n, _ => seq(n, _ => [])),
      seq(n, _ => []),
      seq(n, _ => seq(n, _ => 0)),
      seq(n, _ => []))
  }

  // A copy replaces a file by one reflecting at least as much of the same log, from any device.
  predicate Enabled(s: System, step: Step) {
    && Shaped(s)
    && match step
       case Write(d, _, _) => d < |s.disk|
       case CompactOwn(d) => d < |s.disk|
       case CopyLog(from, to, owner) =>
         && from < |s.disk| && to < |s.disk| && owner < |s.disk|
         && s.have[from][owner] >= s.have[to][owner]
  }

  // The entry an append writes: the join of every visible head, with the writer's counter bumped.
  function NewEntry(files: seq<Log>, d: Device, op: Op, now: Time): Entry {
    Entry(Increment(JoinAll(Heads(files)), d), now, d, op)
  }

  function AppendTo(log: Log, e: Entry): Log {
    if |log + [e]| > NOTE_LOG_COMPACT_THRESHOLD then Compact(log + [e]) else log + [e]
  }

  function Next(s: System, step: Step): (s': System)
    requires Enabled(s, step)
    ensures Shaped(s') && |s'.disk| == |s.disk|
  {
    match step
    case Write(d, op, now) =>
      var e := NewEntry(s.disk[d], d, op, now);
      var row: seq<nat> := s.have[d][d := |s.hist[d]| + 1];
      System(
        s.disk[d := s.disk[d][d := AppendTo(s.disk[d][d], e)]],
        s.hist[d := s.hist[d] + [e]],
        s.have[d := row],
        s.seen[d := s.seen[d] + [s.have[d]]])
    case CompactOwn(d) =>
      s.(disk := s.disk[d := s.disk[d][d := Compact(s.disk[d][d])]])
    case CopyLog(from, to, owner) =>
      s.(disk := s.disk[to := s.disk[to][owner := s.disk[from][owner]]],
         have := s.have[to := s.have[to][owner := s.have[from][owner]]])
  }

  predicate Legal(n: nat, steps: seq<Step>)
    decreases |steps|, 0
  {
    steps == [] || (
      var k := |steps| - 1;
      Legal(n, steps[..k]) && Enabled(Run(n, steps[..k]), steps[k]))
  }

  // The state a run of n devices reaches.
  function Run(n: nat, steps: seq<Step>): (s: System)
    requires Legal(n, steps)
    ensures Shaped(s)
    decreases |steps|, 1
  {
    if steps == [] then Init(n)
    else Next(Run(n, steps[..|steps| - 1]), steps[|steps| - 1])
  }

  // ---- Events and causality ----

  datatype Event = Event(device: Device, index: nat)

  predicate Exists(s: System, e: Event)
    requires Shaped(s)
  {
    e.device < |s.hist| && e.index < |s.hist[e.device]|
  }

  function EntryOf(s: System, e: Event): Entry
    requires Shaped(s) && Exists(s, e)
  {
    s.hist[e.device][e.index]
  }

  function SeenBy(s: System, f: Event, t: Device): nat
    requires Shaped(s) && Exists(s, f) && t < |s.hist|
  {
    s.seen[f.device][f.index][t]
  }

  // The writer of f had e in front of it: f's writer read a copy that reflects e.
  predicate DirectlySeen(s: System, e: Event, f: Event)
    requires Shaped(s)
  {
    Exists(s, e) && Exists(s, f) && e.index < SeenBy(s, f, e.device)
  }

  predicate Chain(s: System, path: seq<Event>)
    requires Shaped(s)
  {
    |path| >= 2 && forall k :: 0 <= k < |path| - 1 ==> DirectlySeen(s, path[k], path[k + 1])
  }

  // Happens-before: the transitive closure of having been seen.
  ghost predicate Before(s: System, e: Event, f: Event)
    requires Shaped(s)
  {
    exists path :: Chain(s, path) && path[0] == e && path[|path| - 1] == f
  }

  lemma BeforeExtends(s: System, e: Event, g: Event, f: Event)
    requires Shaped(s) && DirectlySeen(s, g, f)
    requires e == g || Before(s, e, g)
    ensures Before(s, e, f)
  {
    var path: seq<Event>;
    if e == g {
      path := [g];
    } else {
      path :| Chain(s, path) && path[0] == e && path[|path| - 1] == g;
    }
    var longer := path + [f];
    assert Chain(s, longer) && longer[0] == e && longer[|longer| - 1] == f;
  }

  // ---- The invariant ----

  ghost predicate FilesReflectHistory(s: System)
    requires Shaped(s)
  {
    && (forall d :: 0 <= d < |s.disk| ==> s.have[d][d] == |s.hist[d]|)
    && (forall d, t :: 0 <= d < |s.disk| && 0 <= t < |s.disk| ==> SameLog(s.disk[d][t], s.hist[t][..s.have[d][t]]))
    && (forall d, t :: 0 <= d < |s.disk| && 0 <= t < |s.disk| ==> WrittenBy(s.disk[d][t], t))
  }

  predicate WrittenBy(log: Log, d: Device) {
    forall e <- log :: e.device == d
  }

  ghost predicate EntriesWellFormed(s: System)
    requires Shaped(s)
  {
    forall e: Event :: Exists(s, e) ==> EntryWellFormed(s, e)
  }

  ghost predicate SeenIsDominated(s: System)
    requires Shaped(s)
  {
    forall e: Event, f: Event :: DirectlySeen(s, e, f) ==>
      Dominates(EntryOf(s, f).vv, EntryOf(s, e).vv) && !Dominates(EntryOf(s, e).vv, EntryOf(s, f).vv)
  }

  ghost predicate CountersExplained(s: System)
    requires Shaped(s)
  {
    forall f: Event, t: Device, c: nat :: Exists(s, f) && c < Counter(EntryOf(s, f).vv, t) ==> Explained(s, Event(t, c), f)
  }

  ghost predicate Explained(s: System, e: Event, f: Event)
    requires Shaped(s)
  {
    Exists(s, e) && (e == f || Before(s, e, f))
  }

  ghost predicate Inv(s: System) {
    && Shaped(s)
    && FilesReflectHistory(s)
    && EntriesWellFormed(s)
    && SeenIsDominated(s)
    && CountersExplained(s)
  }

  // The newest event of t that device d's copies reflect.
  function HeadEvent(s: System, d: Device, t: Device): Event
    requires Shaped(s) && d < |s.disk| && t < |s.disk| && s.have[d][t] > 0
  {
    Event(t, s.have[d][t] - 1)
  }

  lemma FileHead(s: System, d: Device, t: Device)
    requires Inv(s) && d < |s.disk| && t < |s.disk|
    ensures s.disk[d][t] == [] <==> s.have[d][t] == 0
    ensures s.have[d][t] > 0 ==> s.disk[d][t][|s.disk[d][t]| - 1] == EntryOf(s, HeadEvent(s, d, t))
  {
    SameLogDigest(s.disk[d][t], s.hist[t][..s.have[d][t]]);
  }

  predicate IsLast(log: Log, h: Entry) {
    log != [] && log[|log| - 1] == h
  }

  lemma {:induction false} HeadIsLast(files: seq<Log>, h: Entry) returns (t: nat)
    requires h in Heads(files)
    ensures t < |files| && IsLast(files[t], h)
  {
    var n := |files| - 1;
    if IsLast(files[n], h) {
      t := n;
    } else {
      assert h in Heads(files[..n]);
      t := HeadIsLast(files[..n], h);
    }
  }

  lemma {:induction false} LastIsHead(files: seq<Log>, t: nat, h: Entry)
    requires t < |files| && IsLast(files[t], h)
    ensures h in Heads(files)
  {
    var n := |files| - 1;
    if t < n {
      LastIsHead(files[..n], t, h);
    }
  }

  lemma HeadsMembers(files: seq<Log>, h: Entry)
    ensures h in Heads(files) <==> exists t :: 0 <= t < |files| && IsLast(files[t], h)
  {
    if h in Heads(files) {
      var t := HeadIsLast(files, h);
    }
    if t :| 0 <= t < |files| && IsLast(files[t], h) {
      LastIsHead(files, t, h);
    }
  }

  predicate IsVisibleHead(s: System, d: Device, t: Device, h: Entry)
    requires Shaped(s) && d < |s.disk| && t < |s.disk|
  {
    s.have[d][t] > 0 && EntryOf(s, HeadEvent(s, d, t)) == h
  }

  /** The heads a device reads are exactly the newest events its copies reflect. */
  lemma VisibleHeads(s: System, d: Device, h: Entry)
    requires Inv(s) && d < |s.disk|
    ensures h in Heads(s.disk[d]) <==> exists t: Device :: t < |s.disk| && IsVisibleHead(s, d, t, h)
  {
    var files := s.disk[d];
    HeadsMembers(files, h);
    if t :| 0 <= t < |files| && IsLast(files[t], h) {
      FileHead(s, d, t);
      assert IsVisibleHead(s, d, t, h);
    }
    if t: Device :| t < |s.disk| && IsVisibleHead(s, d, t, h) {
      FileHead(s, d, t);
      assert IsLast(files[t], h);
    }
  }

  /** What a device's merged vector says: it bounds every visible entry, and each counter is owed to a visible head. */
  lemma MergedVectorBounds(s: System, d: Device, e: Event)
    requires Inv(s) && d < |s.disk| && Exists(s, e) && e.index < s.have[d][e.device]
    ensures Dominates(JoinAll(Heads(s.disk[d])), EntryOf(s, e).vv)
  {
    var vv := JoinAll(Heads(s.disk[d]));
    var h := HeadEvent(s, d, e.device);
    JoinAllBounds(Heads(s.disk[d]), vv);
    assert IsVisibleHead(s, d, e.device, EntryOf(s, h));
    VisibleHeads(s, d, EntryOf(s, h));
    if e != h {
      assert DirectlySeen(s, e, h);
      DominatesTransitive(vv, EntryOf(s, h).vv, EntryOf(s, e).vv);
    }
  }

  lemma JoinAllAttained(heads: seq<Entry>, k: Device) returns (h: Entry)
    requires Counter(JoinAll(heads), k) > 0
    ensures h in heads && Counter(h.vv, k) == Counter(JoinAll(heads), k)
  {
    var n := |heads| - 1;
    if Counter(heads[n].vv, k) == Counter(JoinAll(heads), k) {
      h := heads[n];
    } else {
      h := JoinAllAttained(heads[..n], k);
    }
  }

  lemma MergedCounterExplained(s: System, d: Device, t: Device, c: nat) returns (h: Event)
    requires Inv(s) && d < |s.disk| && c < Counter(JoinAll(Heads(s.disk[d])), t)
    ensures Exists(s, h) && h.index < s.have[d][h.device] && Explained(s, Event(t, c), h)
  {
    var entry := JoinAllAttained(Heads(s.disk[d]), t);
    VisibleHeads(s, d, entry);
    var u: Device :| u < |s.disk| && IsVisibleHead(s, d, u, entry);
    h := HeadEvent(s, d, u);
  }

  // ---- Every step keeps the invariant ----

  lemma InitInv(n: nat)
    ensures Inv(Init(n))
  {
    var s := Init(n);
    forall d, t | 0 <= d < n && 0 <= t < n ensures SameLog(s.disk[d][t], s.hist[t][..s.have[d][t]]) {
      assert s.hist[t][..0] == [];
    }
  }

  lemma StepKeepsEvents(s: System, step: Step, e: Event)
    requires Enabled(s, step) && Exists(s, e)
    ensures var s' := Next(s, step);
            && Exists(s', e) && EntryOf(s', e) == EntryOf(s, e)
            && forall t: Device :: t < |s.hist| ==> SeenBy(s', e, t) == SeenBy(s, e, t)
  {}

  lemma StepKeepsBefore(s: System, step: Step, e: Event, f: Event)
    requires Enabled(s, step) && Before(s, e, f)
    ensures Before(Next(s, step), e, f)
  {
    var s' := Next(s, step);
    var path :| Chain(s, path) && path[0] == e && path[|path| - 1] == f;
    forall k | 0 <= k < |path| - 1 ensures DirectlySeen(s', path[k], path[k + 1]) {
      assert DirectlySeen(s, path[k], path[k + 1]);
      StepKeepsEvents(s, step, path[k]);
      StepKeepsEvents(s, step, path[k + 1]);
    }
    assert Chain(s', path);
  }

  // The event a write creates.
  function Written(s: System, d: Device): Event
    requires Shaped(s) && d < |s.hist|
  {
    Event(d, |s.hist[d]|)
  }

  lemma WriteAddsOne(s: System, d: Device, op: Op, now: Time)
    requires Inv(s) && d < |s.disk|
    ensures var s', f := Next(s, Write(d, op, now)), Written(s, d);
            && Exists(s', f) && EntryOf(s', f) == NewEntry(s.disk[d], d, op, now)
            && (forall t: Device :: t < |s.hist| ==> SeenBy(s', f, t) == s.have[d][t])
            && (forall e: Event :: Exists(s', e) <==> Exists(s, e) || e == f)
            && (forall e: Event :: DirectlySeen(s', e, f) <==> Exists(s, e) && e.index < s.have[d][e.device])
  {
    var s', f := Next(s, Write(d, op, now)), Written(s, d);
    forall e: Event ensures Exists(s', e) <==> Exists(s, e) || e == f {}
    forall e: Event ensures DirectlySeen(s', e, f) <==> Exists(s, e) && e.index < s.have[d][e.device] {}
  }

  lemma JoinAllZeroFree(heads: seq<Entry>)
    requires forall h <- heads :: ZeroFree(h.vv)
    ensures ZeroFree(JoinAll(heads))
  {}

  // The writer's own counter in what it reads is the number of entries it has written.
  lemma OwnCounter(s: System, d: Device)
    requires Inv(s) && d < |s.disk|
    ensures Counter(JoinAll(Heads(s.disk[d])), d) == |s.hist[d]|
  {
    var vv := JoinAll(Heads(s.disk[d]));
    var own := |s.hist[d]|;
    if own > 0 {
      var h := HeadEvent(s, d, d);
      MergedVectorBounds(s, d, h);
      DominatesEverywhere(vv, EntryOf(s, h).vv);
    }
    if Counter(vv, d) > own {
      var g := MergedCounterExplained(s, d, d, own);
      assert false;
    }
  }

  lemma AppendKeepsFile(file: Log, hist: Log, e: Entry)
    requires SameLog(file, hist) && WrittenBy(file, e.device)
    ensures SameLog(AppendTo(file, e), hist + [e]) && WrittenBy(AppendTo(file, e), e.device)
  {
    SameLogAppend(file, hist, e);
    CompactKeepsDigest(file + [e]);
    DigestDecidesCompact(file + [e], Compact(file + [e]));
    CompactIsSelection(file + [e]);
  }

  lemma WriteKeepsOwnFile(s: System, d: Device, op: Op, now: Time)
    requires Inv(s) && d < |s.disk|
    ensures var s' := Next(s, Write(d, op, now));
            SameLog(s'.disk[d][d], s'.hist[d][..s'.have[d][d]]) && WrittenBy(s'.disk[d][d], d)
  {
    var s', e := Next(s, Write(d, op, now)), NewEntry(s.disk[d], d, op, now);
    assert s.hist[d][..s.have[d][d]] == s.hist[d];
    AppendKeepsFile(s.disk[d][d], s.hist[d], e);
    assert s'.hist[d][..s'.have[d][d]] == s.hist[d] + [e];
  }

  lemma WriteKeepsFile(s: System, d: Device, op: Op, now: Time, a: Device, t: Device)
    requires Inv(s) && d < |s.disk| && a < |s.disk| && t < |s.disk|
    ensures var s' := Next(s, Write(d, op, now));
            SameLog(s'.disk[a][t], s'.hist[t][..s'.have[a][t]]) && WrittenBy(s'.disk[a][t], t)
  {
    var s' := Next(s, Write(d, op, now));
    if a == d && t == d {
      WriteKeepsOwnFile(s, d, op, now);
    } else {
      assert s'.disk[a][t] == s.disk[a][t] && s'.have[a][t] == s.have[a][t];
      assert s'.hist[t][..s.have[a][t]] == s.hist[t][..s.have[a][t]];
    }
  }

  lemma WriteKeepsFiles(s: System, d: Device, op: Op, now: Time)
    requires Inv(s) && d < |s.disk|
    ensures FilesReflectHistory(Next(s, Write(d, op, now)))
  {
    var s' := Next(s, Write(d, op, now));
    forall a, t | 0 <= a < |s.disk| && 0 <= t < |s.disk|
      ensures SameLog(s'.disk[a][t], s'.hist[t][..s'.have[a][t]]) && WrittenBy(s'.disk[a][t], t)
    {
      WriteKeepsFile(s, d, op, now, a, t);
    }
  }

  ghost predicate EntryWellFormed(s: System, e: Event)
    requires Shaped(s) && Exists(s, e)
  {
    && EntryOf(s, e).device == e.device
    && ZeroFree(EntryOf(s, e).vv)
    && Counter(EntryOf(s, e).vv, e.device) == e.index + 1
    && SeenBy(s, e, e.device) == e.index
    && forall t: Device :: t < |s.hist| ==> SeenBy(s, e, t) <= |s.hist[t]|
  }

  lemma MergedVectorZeroFree(s: System, d: Device)
    requires Inv(s) && d < |s.disk|
    ensures ZeroFree(JoinAll(Heads(s.disk[d])))
  {
    forall h <- Heads(s.disk[d]) ensures ZeroFree(h.vv) {
      VisibleHeads(s, d, h);
      var t: Device :| t < |s.disk| && IsVisibleHead(s, d, t, h);
      assert EntryWellFormed(s, HeadEvent(s, d, t));
    }
    JoinAllZeroFree(Heads(s.disk[d]));
  }

  lemma NewEntryWellFormed(s: System, d: Device, op: Op, now: Time)
    requires Inv(s) && d < |s.disk|
    ensures var s', f := Next(s, Write(d, op, now)), Written(s, d);
            Exists(s', f) && EntryWellFormed(s', f)
  {
    WriteAddsOne(s, d, op, now);
    OwnCounter(s, d);
    MergedVectorZeroFree(s, d);
  }

  lemma WriteKeepsEntries(s: System, d: Device, op: Op, now: Time)
    requires Inv(s) && d < |s.disk|
    ensures EntriesWellFormed(Next(s, Write(d, op, now)))
  {
    var step := Write(d, op, now);
    var s', f := Next(s, step), Written(s, d);
    NewEntryWellFormed(s, d, op, now);
    WriteAddsOne(s, d, op, now);
    forall e: Event | Exists(s', e) && e != f ensures EntryWellFormed(s', e) {
      StepKeepsEvents(s, step, e);
      assert EntryWellFormed(s, e);
    }
  }

  lemma WriteKeepsDomination(s: System, d: Device, op: Op, now: Time)
    requires Inv(s) && d < |s.disk|
    ensures SeenIsDominated(Next(s, Write(d, op, now)))
  {
    var step := Write(d, op, now);
    var s', f := Next(s, step), Written(s, d);
    WriteAddsOne(s, d, op, now);
    var vv := JoinAll(Heads(s.disk[d]));
    IncrementStrictlyDominates(vv, d);
    forall e: Event, g: Event | DirectlySeen(s', e, g)
      ensures Dominates(EntryOf(s', g).vv, EntryOf(s', e).vv) && !Dominates(EntryOf(s', e).vv, EntryOf(s', g).vv)
    {
      if g == f {
        MergedVectorBounds(s, d, e);
        StepKeepsEvents(s, step, e);
        DominatesTransitive(Increment(vv, d), vv, EntryOf(s, e).vv);
        if Dominates(EntryOf(s, e).vv, Increment(vv, d)) {
          DominatesTransitive(vv, EntryOf(s, e).vv, Increment(vv, d));
        }
      } else {
        StepKeepsEvents(s, step, g);
        assert Exists(s, e);
        StepKeepsEvents(s, step, e);
        assert DirectlySeen(s, e, g);
      }
    }
  }

  lemma WriteKeepsExplanation(s: System, d: Device, op: Op, now: Time)
    requires Inv(s) && d < |s.disk|
    ensures CountersExplained(Next(s, Write(d, op, now)))
  {
    var step := Write(d, op, now);
    var s', f := Next(s, step), Written(s, d);
    WriteAddsOne(s, d, op, now);
    OwnCounter(s, d);
    forall g: Event, t: Device, c: nat | Exists(s', g) && c < Counter(EntryOf(s', g).vv, t)
      ensures Explained(s', Event(t, c), g)
    {
      var e := Event(t, c);
      if g != f {
        StepKeepsEvents(s, step, g);
        assert Explained(s, e, g);
        StepKeepsEvents(s, step, e);
        if e != g {
          StepKeepsBefore(s, step, e, g);
        }
      } else if e != f {
        assert c < Counter(JoinAll(Heads(s.disk[d])), t);
        var h := MergedCounterExplained(s, d, t, c);
        StepKeepsEvents(s, step, e);
        if e != h {
          StepKeepsBefore(s, step, e, h);
        }
        BeforeExtends(s', e, h, f);
      }
    }
  }

  // Steps that append nothing leave all events, and everything said about them, as they were.
  lemma QuietStepKeepsHistory(s: System, step: Step)
    requires Inv(s) && Enabled(s, step) && !step.Write?
    ensures var s' := Next(s, step); EntriesWellFormed(s') && SeenIsDominated(s') && CountersExplained(s')
  {
    var s' := Next(s, step);
    forall e: Event ensures Exists(s', e) == Exists(s, e) {}
    forall e: Event | Exists(s', e) ensures EntryWellFormed(s', e) && EntryOf(s', e) == EntryOf(s, e) {
      assert EntryWellFormed(s, e);
    }
    forall e: Event, f: Event ensures DirectlySeen(s', e, f) == DirectlySeen(s, e, f) {}
    forall f: Event, t: Device, c: nat | Exists(s', f) && c < Counter(EntryOf(s', f).vv, t)
      ensures Explained(s', Event(t, c), f)
    {
      assert Explained(s, Event(t, c), f);
      if Event(t, c) != f {
        StepKeepsBefore(s, step, Event(t, c), f);
      }
    }
  }

  lemma CompactKeepsFiles(s: System, d: Device)
    requires Inv(s) && d < |s.disk|
    ensures FilesReflectHistory(Next(s, CompactOwn(d)))
  {
    var s' := Next(s, CompactOwn(d));
    forall a, t | 0 <= a < |s.disk| && 0 <= t < |s.disk|
      ensures SameLog(s'.disk[a][t], s'.hist[t][..s'.have[a][t]]) && WrittenBy(s'.disk[a][t], t)
    {
      if a == d && t == d {
        CompactKeepsDigest(s.disk[d][d]);
        DigestDecidesCompact(s.disk[d][d], Compact(s.disk[d][d]));
        CompactIsSelection(s.disk[d][d]);
      }
    }
  }

  lemma CopyKeepsFiles(s: System, from: Device, to: Device, owner: Device)
    requires Inv(s) && Enabled(s, CopyLog(from, to, owner))
    ensures FilesReflectHistory(Next(s, CopyLog(from, to, owner)))
  {}

  lemma StepKeepsInv(s: System, step: Step)
    requires Inv(s) && Enabled(s, step)
    ensures Inv(Next(s, step))
  {
    match step
    case Write(d, op, now) =>
      WriteKeepsFiles(s, d, op, now);
      WriteKeepsEntries(s, d, op, now);
      WriteKeepsDomination(s, d, op, now);
      WriteKeepsExplanation(s, d, op, now);
    case CompactOwn(d) =>
      CompactKeepsFiles(s, d);
      QuietStepKeepsHistory(s, step);
    case CopyLog(from, to, owner) =>
      CopyKeepsFiles(s, from, to, owner);
      QuietStepKeepsHistory(s, step);
  }

  lemma {:induction false} RunInv(n: nat, steps: seq<Step>)
    requires Legal(n, steps)
    ensures Inv(Run(n, steps))
    decreases |steps|
  {
    if steps == [] {
      InitInv(n);
    } else {
      var k := |steps| - 1;
      RunInv(n, steps[..k]);
      StepKeepsInv(Run(n, steps[..k]), steps[k]);
    }
  }

  // ---- What an append writes, and how long files get ----

  /**
   An append writes one entry with the operation, device and time it was given, and touches no other file.
   The own log grows by it while it stays at 256 entries or fewer; past that the append leaves at most two, the new entry last.
   */
  lemma WriteMeaning(s: System, d: Device, op: Op, now: Time)
    requires Shaped(s) && d < |s.disk|
    ensures var s' := Next(s, Write(d, op, now));
            && (forall t: Device :: t < |s.disk| && t != d ==> s'.disk[t] == s.disk[t] && s'.hist[t] == s.hist[t] && s'.disk[d][t] == s.disk[d][t])
            && |s'.hist[d]| == |s.hist[d]| + 1 && s'.hist[d][..|s.hist[d]|] == s.hist[d]
            && var e := s'.hist[d][|s.hist[d]|];
               && e.device == d && e.op == op && e.timestamp == now
               && IsLast(s'.disk[d][d], e)
               && if |s.disk[d][d]| < 256 then s'.disk[d][d] == s.disk[d][d] + [e] else |s'.disk[d][d]| <= 2
  {
    CompactIsSelection(s.disk[d][d] + [NewEntry(s.disk[d], d, op, now)]);
  }

  // The files hold at most 256 entries, and a copy that reflects no more than that many is the whole history it reflects.
  predicate FilesBounded(s: System)
    requires Shaped(s)
  {
    forall d, t :: 0 <= d < |s.disk| && 0 <= t < |s.disk| ==> |s.disk[d][t]| <= 256
  }

  predicate FilesWhole(s: System)
    requires Shaped(s)
  {
    forall d, t :: 0 <= d < |s.disk| && 0 <= t < |s.disk| && s.have[d][t] <= 256 ==> s.disk[d][t] == s.hist[t][..s.have[d][t]]
  }

  lemma StepKeepsBound(s: System, step: Step)
    requires Enabled(s, step) && FilesBounded(s)
    ensures FilesBounded(Next(s, step))
  {
    match step
    case Write(d, op, now) => WriteMeaning(s, d, op, now);
    case CompactOwn(d) => CompactIsSelection(s.disk[d][d]);
    case CopyLog(_, _, _) =>
  }

  lemma WriteKeepsWhole(s: System, d: Device, op: Op, now: Time, a: Device, t: Device)
    requires Inv(s) && d < |s.disk| && FilesWhole(s) && a < |s.disk| && t < |s.disk|
    requires Next(s, Write(d, op, now)).have[a][t] <= 256
    ensures var s' := Next(s, Write(d, op, now)); s'.disk[a][t] == s'.hist[t][..s'.have[a][t]]
  {
    var s' := Next(s, Write(d, op, now));
    if a == d && t == d {
      assert s.hist[d][..s.have[d][d]] == s.hist[d];
      WriteMeaning(s, d, op, now);
    } else {
      assert s'.disk[a][t] == s.disk[a][t] && s'.have[a][t] == s.have[a][t];
      assert s'.hist[t][..s.have[a][t]] == s.hist[t][..s.have[a][t]];
    }
  }

  lemma StepKeepsWhole(s: System, step: Step)
    requires Inv(s) && Enabled(s, step) && !step.CompactOwn? && FilesWhole(s)
    ensures FilesWhole(Next(s, step))
  {
    var s' := Next(s, step);
    if step.Write? {
      forall a, t | 0 <= a < |s.disk| && 0 <= t < |s.disk| && s'.have[a][t] <= 256
        ensures s'.disk[a][t] == s'.hist[t][..s'.have[a][t]]
      {
        WriteKeepsWhole(s, step.d, step.op, step.now, a, t);
      }
    }
  }

  /** In every run no file ever holds more than 256 entries. */
  lemma {:induction false} RunBoundsFiles(n: nat, steps: seq<Step>)
    requires Legal(n, steps)
    ensures FilesBounded(Run(n, steps))
    decreases |steps|
  {
    if steps != [] {
      var k := |steps| - 1;
      RunBoundsFiles(n, steps[..k]);
      StepKeepsBound(Run(n, steps[..k]), steps[k]);
    }
  }

  /** As long as a device has not appended more than 256 entries and nobody asked for a compaction, its log loses no version. */
  lemma {:induction false} ShortLogsAreWhole(n: nat, steps: seq<Step>)
    requires Legal(n, steps) && forall step <- steps :: !step.CompactOwn?
    ensures FilesWhole(Run(n, steps))
    decreases |steps|
  {
    if steps != [] {
      var k := |steps| - 1;
      ShortLogsAreWhole(n, steps[..k]);
      RunInv(n, steps[..k]);
      StepKeepsWhole(Run(n, steps[..k]), steps[k]);
    }
  }
}
