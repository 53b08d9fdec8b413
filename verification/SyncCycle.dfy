/**
 The push side of synchronisation: local writes land in a change journal, any number of sync cycles
 read the watermark, take a timestamp, collect, send, receive and move the watermark, and each may
 fail at any point; after a cycle the journal may be pruned.
 */
module SyncCycle {
  type RowId = nat
  type Time = nat
  type CycleId = nat

  datatype Cycle =
    | Begun(since: Time)                        // the watermark is read
    | Stamped(since: Time, ts: Time)            // the cycle's own time is taken
    | Collected(ts: Time, batch: set<RowId>)
    | Sent(ts: Time)                            // the send returned success
    | Finished(ts: Time)                        // the watermark is moved

  /** `written` are all rows ever and their times, `journal` those not pruned; `sent` is history: the rows in a batch whose send succeeded. */
  datatype State = State(
    clock: Time,
    written: map<RowId, Time>,
    journal: set<RowId>,
    sent: set<RowId>,
    lastSync: Time,
    cycles: map<CycleId, Cycle>)

  datatype Step =
    | Write(row: RowId, t: Time)
    | Begin(c: CycleId)
    | TakeTime(c: CycleId, t: Time)
    | Collect(c: CycleId)
    | Send(c: CycleId)
    | Finish(c: CycleId)
    | Abort(c: CycleId)
    | Prune(c: CycleId, t: Time, retention: nat)

  // What is assumed of a run: every reading of the clock is later than all before, and no cycle outlasts the retention window.
  datatype World = World(strictClock: bool, timely: bool)

  const IDEAL := World(true, true)

  function Init(): State {
    State(0, map[], {}, {}, 0, map[])
  }

  predicate Reads(s: State, t: Time, w: World) {
    if w.strictClock then t > s.clock else t >= s.clock
  }

  predicate Enabled(s: State, step: Step, w: World) {
    match step
    case Write(row, t) => row !in s.written && Reads(s, t, w)
    case Begin(c) => c !in s.cycles
    case TakeTime(c, t) => c in s.cycles && s.cycles[c].Begun? && Reads(s, t, w)
    case Collect(c) => c in s.cycles && s.cycles[c].Stamped?
    case Send(c) => c in s.cycles && s.cycles[c].Collected?
    case Finish(c) => c in s.cycles && s.cycles[c].Sent?
    case Abort(c) => c in s.cycles && !s.cycles[c].Finished?
    case Prune(c, t, retention) =>
      && c in s.cycles && s.cycles[c].Finished? && Reads(s, t, w) && retention > 0
      && (w.timely ==> t <= s.cycles[c].ts + retention)
  }

  // The rows a collection finds: those later than the watermark it read.
  function Later(s: State, since: Time): set<RowId> {
    set r <- s.journal | r in s.written && s.written[r] > since
  }

  function Next(s: State, step: Step, w: World): State
    requires Enabled(s, step, w)
  {
    match step
    case Write(row, t) => s.(clock := t, written := s.written[row := t], journal := s.journal + {row})
    case Begin(c) => s.(cycles := s.cycles[c := Begun(s.lastSync)])
    case TakeTime(c, t) => s.(clock := t, cycles := s.cycles[c := Stamped(s.cycles[c].since, t)])
    case Collect(c) => s.(cycles := s.cycles[c := Collected(s.cycles[c].ts, Later(s, s.cycles[c].since))])
    case Send(c) => s.(sent := s.sent + s.cycles[c].batch, cycles := s.cycles[c := Cycle.Sent(s.cycles[c].ts)])
    case Finish(c) => s.(lastSync := s.cycles[c].ts, cycles := s.cycles[c := Finished(s.cycles[c].ts)])
    case Abort(c) => s.(cycles := s.cycles - {c})
    case Prune(c, t, retention) =>
      s.(clock := t, journal := set r <- s.journal | !(r in s.written && s.written[r] + retention < t))
  }

  predicate Legal(steps: seq<Step>, w: World)
    decreases |steps|, 0
  {
    steps == [] || (
      var k := |steps| - 1;
      Legal(steps[..k], w) && Enabled(Run(steps[..k], w), steps[k], w))
  }

  function Run(steps: seq<Step>, w: World): State
    requires Legal(steps, w)
    decreases |steps|, 1
  {
    if steps == [] then Init() else Next(Run(steps[..|steps| - 1], w), steps[|steps| - 1], w)
  }

  // ---- The invariant ----

  predicate SentUpTo(s: State, t: Time) {
    forall r <- s.written :: s.written[r] <= t ==> r in s.sent
  }

  predicate CycleInv(s: State, cycle: Cycle) {
    match cycle
    case Begun(since) => since <= s.clock && SentUpTo(s, since)
    case Stamped(since, ts) => since <= ts <= s.clock && SentUpTo(s, since)
    case Collected(ts, batch) =>
      && ts <= s.clock && batch <= s.written.Keys
      && forall r <- s.written :: s.written[r] <= ts ==> r in s.sent || r in batch
    case Sent(ts) => ts <= s.clock && SentUpTo(s, ts)
    case Finished(ts) => ts <= s.clock && SentUpTo(s, ts)
  }

  predicate Inv(s: State) {
    && s.lastSync <= s.clock
    && (forall r <- s.written :: s.written[r] <= s.clock)
    && (forall r <- s.written :: r in s.journal || r in s.sent)
    && s.journal <= s.written.Keys && s.sent <= s.written.Keys
    && SentUpTo(s, s.lastSync)
    && (forall c <- s.cycles :: CycleInv(s, s.cycles[c]))
  }

  // The time up to which a cycle counts on every row being sent, or in its batch.
  function ReliedOn(cycle: Cycle): Time {
    match cycle
    case Begun(since) => since
    case Stamped(since, _) => since
    case Collected(ts, _) => ts
    case Sent(ts) => ts
    case Finished(ts) => ts
  }

  // Time passing, rows being written later and more being sent break nothing a cycle relies on.
  lemma CycleInvStays(s: State, t: State, cycle: Cycle)
    requires CycleInv(s, cycle) && s.clock <= t.clock && s.sent <= t.sent && s.written.Keys <= t.written.Keys
    requires forall r <- t.written :: (r in s.written && t.written[r] == s.written[r]) || t.written[r] > ReliedOn(cycle)
    ensures CycleInv(t, cycle)
  {
  }

  lemma OthersStay(s: State, t: State)
    requires Inv(s) && s.clock <= t.clock && s.sent <= t.sent && s.written.Keys <= t.written.Keys
    requires forall r <- t.written :: (r in s.written && t.written[r] == s.written[r]) || PastAll(s, t.written[r])
    ensures forall c <- s.cycles :: CycleInv(t, s.cycles[c])
    ensures SentUpTo(t, s.lastSync)
  {
    forall c <- s.cycles ensures CycleInv(t, s.cycles[c]) {
      CycleInvStays(s, t, s.cycles[c]);
    }
  }

  // What is collected, with what was sent before, is every row up to the cycle's own time.
  lemma CollectIsComplete(s: State, c: CycleId)
    requires Inv(s) && c in s.cycles && s.cycles[c].Stamped?
    ensures CycleInv(s, Collected(s.cycles[c].ts, Later(s, s.cycles[c].since)))
  {
  }

  // ---- Which writes and prunes are safe ----

  // The time is past the watermark and past what every cycle relies on.
  predicate PastAll(s: State, t: Time) {
    t > s.lastSync && forall c <- s.cycles :: t > ReliedOn(s.cycles[c])
  }

  predicate Safe(s: State, step: Step) {
    match step
    case Write(_, t) => PastAll(s, t)
    case Prune(_, t, retention) => forall r <- s.journal :: r in s.written && s.written[r] + retention < t ==> r in s.sent
    case _ => true
  }

  lemma WriteKeepsInvIff(s: State, row: RowId, t: Time, w: World)
    requires Inv(s) && Enabled(s, Write(row, t), w)
    ensures Inv(Next(s, Write(row, t), w)) <==> PastAll(s, t)
  {
    var next := Next(s, Write(row, t), w);
    assert row in next.written && row !in next.sent;
    if PastAll(s, t) {
      OthersStay(s, next);
    } else if t > s.lastSync {
      var c :| c in s.cycles && t <= ReliedOn(s.cycles[c]);
      assert !CycleInv(next, s.cycles[c]);
    }
  }

  /** A write keeps the invariant exactly if its time is past the watermark and past what every cycle under way relies on, a prune exactly if all it drops was sent, and every other step always does. */
  lemma StepKeepsInvIff(s: State, step: Step, w: World)
    requires Inv(s) && Enabled(s, step, w)
    ensures Inv(Next(s, step, w)) <==> Safe(s, step)
  {
    if step.Write? {
      WriteKeepsInvIff(s, step.row, step.t, w);
    } else {
      OthersStay(s, Next(s, step, w));
      match step
      case Collect(c) => CollectIsComplete(s, c);
      case Finish(c) => assert CycleInv(s, s.cycles[c]);
      case Send(c) => assert CycleInv(s, s.cycles[c]);
      case _ =>
    }
  }

  // A strict clock makes every write safe, and cycles shorter than the retention window make every prune safe.
  lemma IdealStepsAreSafe(s: State, step: Step)
    requires Inv(s) && Enabled(s, step, IDEAL)
    ensures Safe(s, step)
  {
    if step.Write? {
      forall c <- s.cycles ensures step.t > ReliedOn(s.cycles[c]) {
        assert CycleInv(s, s.cycles[c]);
      }
    } else if step.Prune? {
      assert CycleInv(s, s.cycles[step.c]);
    }
  }

  predicate InvThroughout(steps: seq<Step>, w: World)
    requires Legal(steps, w)
  {
    Inv(Run(steps, w)) && (steps != [] ==> InvThroughout(steps[..|steps| - 1], w))
  }

  predicate SafeThroughout(steps: seq<Step>, w: World)
    requires Legal(steps, w)
  {
    steps == [] || (
      var k := |steps| - 1;
      SafeThroughout(steps[..k], w) && Safe(Run(steps[..k], w), steps[k]))
  }

  /** Whatever the clock and however long cycles take: a run keeps the invariant throughout exactly if each write and each prune in it is safe when it is made. */
  lemma {:induction false} RunKeepsInvIff(steps: seq<Step>, w: World)
    requires Legal(steps, w)
    ensures InvThroughout(steps, w) <==> SafeThroughout(steps, w)
  {
    if steps != [] {
      var k := |steps| - 1;
      RunKeepsInvIff(steps[..k], w);
      if InvThroughout(steps[..k], w) {
        assert Inv(Run(steps[..k], w));
        StepKeepsInvIff(Run(steps[..k], w), steps[k], w);
      }
    }
  }

  lemma {:induction false} IdealRunIsSafe(steps: seq<Step>)
    requires Legal(steps, IDEAL)
    ensures SafeThroughout(steps, IDEAL) && Inv(Run(steps, IDEAL))
  {
    if steps != [] {
      var k := |steps| - 1;
      IdealRunIsSafe(steps[..k]);
      IdealStepsAreSafe(Run(steps[..k], IDEAL), steps[k]);
      StepKeepsInvIff(Run(steps[..k], IDEAL), steps[k], IDEAL);
    }
  }

  // ---- Main results ----

  /** In every run whose writes and prunes are safe, with succeeding and failing cycles, also overlapping ones: each row at or before the watermark was sent, and only sent rows are pruned. */
  lemma AtLeastOncePush(steps: seq<Step>, w: World, r: RowId)
    requires Legal(steps, w) && SafeThroughout(steps, w) && r in Run(steps, w).written
    ensures Run(steps, w).written[r] <= Run(steps, w).lastSync ==> r in Run(steps, w).sent
    ensures r !in Run(steps, w).journal ==> r in Run(steps, w).sent
  {
    RunKeepsInvIff(steps, w);
  }

  /** Nothing is stranded: a row not yet sent is collected by any cycle that reads the watermark now, whatever fails in between. */
  lemma UnsentIsCollectedNext(steps: seq<Step>, w: World, r: RowId)
    requires Legal(steps, w) && SafeThroughout(steps, w) && r in Run(steps, w).written && r !in Run(steps, w).sent
    ensures r in Later(Run(steps, w), Run(steps, w).lastSync)
  {
    RunKeepsInvIff(steps, w);
  }

  predicate Reached(steps: seq<Step>, w: World, s: State) {
    Legal(steps, w) && Run(steps, w) == s
  }

  lemma Then(steps: seq<Step>, w: World, s: State, step: Step) returns (more: seq<Step>)
    requires Reached(steps, w, s) && Enabled(s, step, w)
    ensures Reached(more, w, Next(s, step, w))
  {
    more := steps + [step];
    assert more[..|steps|] == steps;
  }

  /** When two readings of the clock agree, a row can fall at the watermark unsent, and no later cycle collects it. */
  lemma EqualTimesLoseARow() returns (steps: seq<Step>)
    ensures Legal(steps, World(false, true))
    ensures var s := Run(steps, World(false, true));
            1 in s.written && s.written[1] <= s.lastSync && 1 !in s.sent && 1 !in Later(s, s.lastSync)
  {
    var w := World(false, true);
    var s := Init();
    steps := Then([], w, s, Begin(0));
    s := Next(s, Begin(0), w);
    steps := Then(steps, w, s, TakeTime(0, 5));
    s := Next(s, TakeTime(0, 5), w);
    steps := Then(steps, w, s, Collect(0));
    s := Next(s, Collect(0), w);
    steps := Then(steps, w, s, Write(1, 5));
    s := Next(s, Write(1, 5), w);
    steps := Then(steps, w, s, Send(0));
    s := Next(s, Send(0), w);
    steps := Then(steps, w, s, Finish(0));
  }

  /** When a cycle outlasts the retention window, pruning after it can drop a row that was never sent. */
  lemma SlowCyclePrunesUnsent() returns (steps: seq<Step>)
    ensures Legal(steps, World(true, false))
    ensures var s := Run(steps, World(true, false)); 1 in s.written && 1 !in s.journal && 1 !in s.sent
  {
    var w := World(true, false);
    var s := Init();
    steps := Then([], w, s, Begin(0));
    s := Next(s, Begin(0), w);
    steps := Then(steps, w, s, TakeTime(0, 5));
    s := Next(s, TakeTime(0, 5), w);
    steps := Then(steps, w, s, Collect(0));
    s := Next(s, Collect(0), w);
    steps := Then(steps, w, s, Write(1, 6));
    s := Next(s, Write(1, 6), w);
    steps := Then(steps, w, s, Send(0));
    s := Next(s, Send(0), w);
    steps := Then(steps, w, s, Finish(0));
    s := Next(s, Finish(0), w);
    steps := Then(steps, w, s, Prune(0, 9, 2));
  }

  // ---- What is pruned ----

  predicate PrunesPassed(steps: seq<Step>, clock: Time) {
    forall step <- steps :: step.Prune? ==> step.t <= clock
  }

  // No prune in the run reached back to time t.
  predicate OutOfReach(steps: seq<Step>, t: Time) {
    forall step <- steps :: step.Prune? ==> step.t <= t + step.retention
  }

  lemma {:induction false} PrunesArePast(steps: seq<Step>, w: World)
    requires Legal(steps, w)
    ensures PrunesPassed(steps, Run(steps, w).clock)
  {
    if steps != [] {
      var k := |steps| - 1;
      PrunesArePast(steps[..k], w);
      assert steps == steps[..k] + [steps[k]];
    }
  }

  /** In every run the journal holds exactly the rows that no prune of the run reached back to. */
  lemma {:induction false} JournalIff(steps: seq<Step>, w: World, r: RowId)
    requires Legal(steps, w)
    ensures var s := Run(steps, w); r in s.journal <==> r in s.written && OutOfReach(steps, s.written[r])
  {
    if steps != [] {
      var k := |steps| - 1;
      JournalIff(steps[..k], w, r);
      PrunesArePast(steps[..k], w);
      assert steps == steps[..k] + [steps[k]];
      assert steps[k] in steps && forall step <- steps[..k] :: step in steps;
    }
  }

  // ---- What is not collected again ----

  predicate TimesPassed(s: State) {
    forall c <- s.cycles :: s.cycles[c].Begun? || s.cycles[c].ts <= s.clock
  }

  lemma {:induction false} TimesArePast(steps: seq<Step>, w: World)
    requires Legal(steps, w)
    ensures TimesPassed(Run(steps, w))
  {
    if steps != [] {
      TimesArePast(steps[..|steps| - 1], w);
    }
  }

  // The cycle has taken, and will take, no row up to the time `mark`, and will not move the watermark behind it.
  predicate BeyondMark(s: State, cycle: Cycle, mark: Time) {
    match cycle
    case Begun(since) => mark <= since
    case Stamped(since, ts) => mark <= since && mark <= ts
    case Collected(ts, batch) => mark <= ts && forall r <- batch :: r in s.written && mark < s.written[r]
    case Sent(ts) => mark <= ts
    case Finished(_) => true
  }

  predicate AllBeyond(s: State, mark: Time) {
    mark <= s.clock && mark <= s.lastSync && forall c <- s.cycles :: BeyondMark(s, s.cycles[c], mark)
  }

  lemma StepStaysBeyond(s: State, step: Step, w: World, mark: Time)
    requires Enabled(s, step, w) && AllBeyond(s, mark)
    ensures AllBeyond(Next(s, step, w), mark)
  {
    var next := Next(s, step, w);
    forall c <- next.cycles ensures BeyondMark(next, next.cycles[c], mark) {
      assert c in s.cycles ==> BeyondMark(s, s.cycles[c], mark);
    }
  }

  // No cycle but c is under way.
  predicate Alone(s: State, c: CycleId) {
    forall o <- s.cycles :: o != c ==> s.cycles[o].Finished?
  }

  lemma {:induction false} RunStaysBeyond(before: seq<Step>, c: CycleId, after: seq<Step>, w: World)
    requires Legal(before, w) && Enabled(Run(before, w), Finish(c), w) && Alone(Run(before, w), c)
    requires Legal(before + [Finish(c)] + after, w)
    ensures AllBeyond(Run(before + [Finish(c)] + after, w), Run(before, w).cycles[c].ts)
  {
    var steps := before + [Finish(c)] + after;
    var k := |steps| - 1;
    if after == [] {
      assert steps[..k] == before;
      TimesArePast(before, w);
    } else {
      assert steps[..k] == before + [Finish(c)] + after[..|after| - 1];
      RunStaysBeyond(before, c, after[..|after| - 1], w);
      StepStaysBeyond(Run(steps[..k], w), steps[k], w, Run(before, w).cycles[c].ts);
    }
  }

  /** After a cycle that finishes while no other is under way, no cycle ever collects a row written by its time again, whatever follows. */
  lemma NeverCollectedAgain(before: seq<Step>, c: CycleId, after: seq<Step>, w: World, o: CycleId)
    requires Legal(before, w) && Enabled(Run(before, w), Finish(c), w) && Alone(Run(before, w), c)
    requires Legal(before + [Finish(c)] + after, w)
    ensures var s, ts := Run(before + [Finish(c)] + after, w), Run(before, w).cycles[c].ts;
            o in s.cycles && s.cycles[o].Collected? ==> forall r <- s.cycles[o].batch :: r in s.written && s.written[r] > ts
  {
    RunStaysBeyond(before, c, after, w);
  }

  /** Two overlapping cycles: the one stamped first finishes last and moves the watermark back, and a row that was sent is collected anew. */
  lemma OverlapCollectsAgain() returns (steps: seq<Step>)
    ensures Legal(steps, IDEAL)
    ensures var s := Run(steps, IDEAL); 1 in s.sent && 1 in Later(s, s.lastSync)
    ensures var s := Run(steps, IDEAL); 1 in s.cycles && s.cycles[1] == Finished(7) && s.written[1] <= 7
  {
    var w := IDEAL;
    var s := Init();
    steps := Then([], w, s, Begin(0));
    s := Next(s, Begin(0), w);
    steps := Then(steps, w, s, TakeTime(0, 5));
    s := Next(s, TakeTime(0, 5), w);
    steps := Then(steps, w, s, Collect(0));
    s := Next(s, Collect(0), w);
    steps := Then(steps, w, s, Send(0));
    s := Next(s, Send(0), w);
    steps := Then(steps, w, s, Write(1, 6));
    s := Next(s, Write(1, 6), w);
    steps := Then(steps, w, s, Begin(1));
    s := Next(s, Begin(1), w);
    steps := Then(steps, w, s, TakeTime(1, 7));
    s := Next(s, TakeTime(1, 7), w);
    steps := Then(steps, w, s, Collect(1));
    s := Next(s, Collect(1), w);
    steps := Then(steps, w, s, Send(1));
    s := Next(s, Send(1), w);
    steps := Then(steps, w, s, Finish(1));
    s := Next(s, Finish(1), w);
    steps := Then(steps, w, s, Finish(0));
  }

  // ---- One cycle as the program runs it ----

  /** The journal store of one device. */
  class SyncStore {
    var clock: Time
    var written: map<RowId, Time>
    var journal: set<RowId>
    var sent: set<RowId>
    var lastSync: Time
    ghost var cycles: map<CycleId, Cycle>

    ghost function Value(): State
      reads this
    {
      State(clock, written, journal, sent, lastSync, cycles)
    }

    constructor ()
      ensures Value() == Init()
    {
      clock, written, journal, sent, lastSync, cycles := 0, map[], {}, {}, 0, map[];
    }

    /** One cycle: what the outside answers are parameters. `applied` says, for each remote change in turn, whether applying it succeeds. */
    method RunSync(ghost c: CycleId, now: Time, sendSucceeds: bool, receiveSucceeds: bool, applied: seq<bool>) returns (done: bool)
      requires c !in cycles && now > clock
      modifies this
      ensures done <==> sendSucceeds && receiveSucceeds && forall k :: 0 <= k < |applied| ==> applied[k]
      ensures Value() == CycleOf(old(Value()), c, now, sendSucceeds, done)
    {
      var since := lastSync;
      cycles := cycles[c := Begun(since)];
      clock := now;
      cycles := cycles[c := Stamped(since, now)];
      var batch := set r <- journal | r in written && written[r] > since;
      cycles := cycles[c := Collected(now, batch)];
      if !sendSucceeds {
        return false;
      }
      sent := sent + batch;
      cycles := cycles[c := Cycle.Sent(now)];
      if !receiveSucceeds {
        return false;
      }
      for k := 0 to |applied|
        invariant forall i :: 0 <= i < k ==> applied[i]
        modifies {}
      {
        if !applied[k] {
          return false;
        }
      }
      lastSync := now;
      cycles := cycles[c := Finished(now)];
      done := true;
    }
  }

  // The steps of one undisturbed cycle, as far as it gets.
  function CycleOf(s: State, c: CycleId, now: Time, sent: bool, done: bool): State
    requires c !in s.cycles && now > s.clock && (done ==> sent)
  {
    var a := Next(s, Begin(c), IDEAL);
    var b := Next(a, TakeTime(c, now), IDEAL);
    var d := Next(b, Collect(c), IDEAL);
    if !sent then d
    else
      var e := Next(d, Send(c), IDEAL);
      if done then Next(e, Finish(c), IDEAL) else e
  }

  /** What one undisturbed cycle sends is every row in the journal past the watermark it found, and nothing else; it writes and prunes nothing. */
  lemma CycleSendsIff(s: State, c: CycleId, now: Time, sent: bool, done: bool, r: RowId)
    requires c !in s.cycles && now > s.clock && (done ==> sent)
    ensures var t := CycleOf(s, c, now, sent, done);
            && (r in t.sent <==> r in s.sent || (sent && r in s.journal && r in s.written && s.written[r] > s.lastSync))
            && t.written == s.written && t.journal == s.journal && t.clock == now
            && t.lastSync == if done then now else s.lastSync
  {
  }

  /** A cycle that completes leaves nothing unsent that was written before it; one that fails leaves the watermark where it was. */
  lemma CycleSendsAll(s: State, c: CycleId, now: Time, sent: bool, done: bool)
    requires Inv(s) && c !in s.cycles && now > s.clock && (done ==> sent)
    ensures Inv(CycleOf(s, c, now, sent, done))
    ensures sent ==> forall r <- s.written :: r in CycleOf(s, c, now, sent, done).sent
    ensures CycleOf(s, c, now, sent, done).lastSync == if done then now else s.lastSync
  {
    var a := Next(s, Begin(c), IDEAL);
    StepKeepsInvIff(s, Begin(c), IDEAL);
    var b := Next(a, TakeTime(c, now), IDEAL);
    StepKeepsInvIff(a, TakeTime(c, now), IDEAL);
    var d := Next(b, Collect(c), IDEAL);
    StepKeepsInvIff(b, Collect(c), IDEAL);
    if sent {
      var e := Next(d, Send(c), IDEAL);
      StepKeepsInvIff(d, Send(c), IDEAL);
      assert CycleInv(e, e.cycles[c]);
      if done {
        StepKeepsInvIff(e, Finish(c), IDEAL);
      }
    }
  }
}
