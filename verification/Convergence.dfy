/**
 What every run of the replication system guarantees: version vectors are causality, devices
 holding the same entries read the same note, and a writer reads its own write back.
 */
module Convergence {
  import opened Wrappers
  import opened VersionVectors
  import opened NoteLog
  import opened Compaction
  import opened Replication

  // ---- Version vectors characterise causality ----

  predicate StrictlyAbove(a: Vector, b: Vector) {
    Dominates(a, b) && !Dominates(b, a)
  }

  lemma StrictlyAboveTransitive(a: Vector, b: Vector, c: Vector)
    requires StrictlyAbove(a, b) && StrictlyAbove(b, c)
    ensures StrictlyAbove(a, c)
  {
    DominatesTransitive(a, b, c);
    if Dominates(c, a) {
      DominatesTransitive(b, c, a);
      DominatesTransitive(c, a, b);
    }
  }

  lemma {:induction false} ChainDominates(s: System, path: seq<Event>)
    requires Shaped(s) && SeenIsDominated(s) && Chain(s, path)
    ensures Exists(s, path[0]) && Exists(s, path[|path| - 1])
    ensures StrictlyAbove(EntryOf(s, path[|path| - 1]).vv, EntryOf(s, path[0]).vv)
  {
    var n := |path| - 1;
    assert DirectlySeen(s, path[n - 1], path[n]);
    if n > 1 {
      var front := path[..n];
      forall k | 0 <= k < n - 1 ensures DirectlySeen(s, front[k], front[k + 1]) {
        assert DirectlySeen(s, path[k], path[k + 1]);
      }
      ChainDominates(s, front);
      var first, previous, last := EntryOf(s, path[0]).vv, EntryOf(s, path[n - 1]).vv, EntryOf(s, path[n]).vv;
      assert StrictlyAbove(previous, first) && StrictlyAbove(last, previous);
      StrictlyAboveTransitive(last, previous, first);
    }
  }

  /**
   In every run, one entry's vector is dominated by another's exactly when it is that entry or
   happened before it; in particular equal vectors occur only on the same entry.
   */
  lemma VectorsAreCausality(n: nat, steps: seq<Step>, e: Event, f: Event)
    requires Legal(n, steps)
    requires Exists(Run(n, steps), e) && Exists(Run(n, steps), f)
    ensures var s := Run(n, steps);
            && (Dominates(EntryOf(s, f).vv, EntryOf(s, e).vv) <==> e == f || Before(s, e, f))
            && (EntryOf(s, f).vv == EntryOf(s, e).vv <==> e == f)
            && !(Before(s, e, f) && Before(s, f, e))
  {
    var s := Run(n, steps);
    RunInv(n, steps);
    VectorsAreCausalityInv(s, e, f);
    VectorsAreCausalityInv(s, f, e);
  }

  lemma VectorsAreCausalityInv(s: System, e: Event, f: Event)
    requires Inv(s) && Exists(s, e) && Exists(s, f)
    ensures Dominates(EntryOf(s, f).vv, EntryOf(s, e).vv) <==> e == f || Before(s, e, f)
    ensures Before(s, e, f) ==> !Dominates(EntryOf(s, e).vv, EntryOf(s, f).vv)
  {
    if Dominates(EntryOf(s, f).vv, EntryOf(s, e).vv) {
      DominatesEverywhere(EntryOf(s, f).vv, EntryOf(s, e).vv);
      assert e.index < Counter(EntryOf(s, f).vv, e.device);
      assert Explained(s, Event(e.device, e.index), f);
    }
    if Before(s, e, f) {
      var path :| Chain(s, path) && path[0] == e && path[|path| - 1] == f;
      ChainDominates(s, path);
    }
  }

  // ---- Reading a device's directory ----

  // A directory listing: every log file present, each once, in whatever order the directory gives.
  predicate IsListing(s: System, d: Device, order: seq<Device>)
    requires Shaped(s) && d < |s.disk|
  {
    && (forall i :: 0 <= i < |order| ==> order[i] < |s.disk|)
    && (forall i, j :: 0 <= i < j < |order| ==> order[i] != order[j])
    && (forall t: Device :: t < |s.disk| && s.disk[d][t] != [] ==> t in order)
  }

  function Files(s: System, d: Device, order: seq<Device>): (logs: seq<Log>)
    requires Shaped(s) && d < |s.disk| && IsListing(s, d, order)
    ensures |logs| == |order|
  {
    seq(|order|, i requires 0 <= i < |order| => s.disk[d][order[i]])
  }

  // The same directory in a store that never compacts.
  function UncompactedFiles(s: System, d: Device, order: seq<Device>): (logs: seq<Log>)
    requires Shaped(s) && d < |s.disk| && IsListing(s, d, order)
    ensures |logs| == |order|
  {
    seq(|order|, i requires 0 <= i < |order| => s.hist[order[i]][..s.have[d][order[i]]])
  }

  lemma WrittenBySingleDevice(log: Log, t: Device)
    requires WrittenBy(log, t)
    ensures SingleDevice(log)
  {}

  lemma HistoryWrittenBy(s: System, t: Device, k: nat)
    requires Inv(s) && t < |s.hist| && k <= |s.hist[t]|
    ensures WrittenBy(s.hist[t][..k], t)
  {
    forall e <- s.hist[t][..k] ensures e.device == t {
      var i :| 0 <= i < k && s.hist[t][i] == e;
      assert EntryWellFormed(s, Event(t, i)) && EntryOf(s, Event(t, i)) == e;
    }
  }

  lemma HeadsOfListing(s: System, d: Device, order: seq<Device>, h: Entry)
    requires Inv(s) && d < |s.disk| && IsListing(s, d, order)
    ensures h in Heads(Files(s, d, order)) <==> exists t: Device :: t < |s.disk| && IsVisibleHead(s, d, t, h)
  {
    var files := Files(s, d, order);
    if h in Heads(files) {
      var i := HeadIsLast(files, h);
      FileHead(s, d, order[i]);
      assert IsVisibleHead(s, d, order[i], h);
    }
    if t: Device :| t < |s.disk| && IsVisibleHead(s, d, t, h) {
      VisibleHeadListed(s, d, order, t, h);
    }
  }

  lemma VisibleHeadListed(s: System, d: Device, order: seq<Device>, t: Device, h: Entry)
    requires Inv(s) && d < |s.disk| && IsListing(s, d, order) && t < |s.disk| && IsVisibleHead(s, d, t, h)
    ensures h in Heads(Files(s, d, order))
  {
    FileHead(s, d, t);
    assert t in order;
    var i :| 0 <= i < |order| && order[i] == t;
    LastIsHead(Files(s, d, order), i, h);
  }

  predicate DistinctDevices(heads: seq<Entry>) {
    forall i, j :: 0 <= i < j < |heads| ==> heads[i].device != heads[j].device
  }

  lemma HeadsDistinct(files: seq<Log>, order: seq<Device>)
    requires |files| == |order|
    requires forall i :: 0 <= i < |order| ==> WrittenBy(files[i], order[i])
    requires forall i, j :: 0 <= i < j < |order| ==> order[i] != order[j]
    ensures DistinctDevices(Heads(files))
    ensures forall h <- Heads(files) :: h.device in order
  {
    if files != [] {
      var n := |files| - 1;
      HeadsDistinct(files[..n], order[..n]);
      if files[n] != [] {
        assert files[n][|files[n]| - 1].device == order[n];
      }
    }
  }

  lemma ListingHeadsZeroFree(s: System, d: Device, order: seq<Device>, h: Entry)
    requires Inv(s) && d < |s.disk| && IsListing(s, d, order) && h in Heads(Files(s, d, order))
    ensures ZeroFree(h.vv)
  {
    HeadsOfListing(s, d, order, h);
    var t: Device :| t < |s.disk| && IsVisibleHead(s, d, t, h);
    assert EntryWellFormed(s, HeadEvent(s, d, t));
  }

  lemma ListingHeads(s: System, d: Device, order: seq<Device>)
    requires Inv(s) && d < |s.disk| && IsListing(s, d, order)
    ensures var heads := Heads(Files(s, d, order));
            DistinctDevices(heads) && NoTwins(heads) && Mergeable(Files(s, d, order)) && forall h <- heads :: ZeroFree(h.vv)
  {
    var files := Files(s, d, order);
    HeadsDistinct(files, order);
    forall h <- Heads(files) ensures ZeroFree(h.vv) {
      ListingHeadsZeroFree(s, d, order, h);
    }
    ZeroFreeHeadsMerge(files);
  }

  /** In every run, whatever order the directory is listed in, reading a note finds a winner to unwrap. */
  lemma ReadingNeverPanics(n: nat, steps: seq<Step>, d: Device, order: seq<Device>)
    requires Legal(n, steps) && d < |Run(n, steps).disk| && IsListing(Run(n, steps), d, order)
    ensures Mergeable(Files(Run(n, steps), d, order))
  {
    RunInv(n, steps);
    ListingHeads(Run(n, steps), d, order);
  }

  /** A store that compacts simulates one that never does: each device reads what it would read uncompacted. */
  lemma CompactingStoreSimulates(n: nat, steps: seq<Step>, d: Device, order: seq<Device>)
    requires Legal(n, steps) && d < |Run(n, steps).disk| && IsListing(Run(n, steps), d, order)
    ensures var s := Run(n, steps);
            && Mergeable(Files(s, d, order)) && Mergeable(UncompactedFiles(s, d, order))
            && Merge(Files(s, d, order)) == Merge(UncompactedFiles(s, d, order))
  {
    var s := Run(n, steps);
    RunInv(n, steps);
    ListingHeads(s, d, order);
    var files, plain := Files(s, d, order), UncompactedFiles(s, d, order);
    forall i | 0 <= i < |order| ensures SameLog(files[i], plain[i]) && SingleDevice(files[i]) && SingleDevice(plain[i]) {
      HistoryWrittenBy(s, order[i], s.have[d][order[i]]);
      WrittenBySingleDevice(files[i], order[i]);
      WrittenBySingleDevice(plain[i], order[i]);
    }
    CompactionInvisible(files, plain);
  }

  // ---- Strong convergence ----

  predicate SameMembers(a: seq<Entry>, b: seq<Entry>) {
    (forall h <- a :: h in b) && (forall h <- b :: h in a)
  }

  lemma SupersededByMembers(a: seq<Entry>, b: seq<Entry>, e: Entry)
    requires SameMembers(a, b)
    ensures Superseded(a, e) <==> Superseded(b, e)
  {}

  lemma JoinAllByMembers(a: seq<Entry>, b: seq<Entry>)
    requires SameMembers(a, b) && forall h <- a :: ZeroFree(h.vv)
    ensures JoinAll(a) == JoinAll(b)
  {
    JoinAllBounds(a, JoinAll(b));
    JoinAllBounds(b, JoinAll(a));
    JoinAllZeroFree(a);
    JoinAllZeroFree(b);
    DominatesAntisymmetric(JoinAll(a), JoinAll(b));
  }

  lemma ContestedByMembers(a: seq<Entry>, b: seq<Entry>)
    requires SameMembers(a, b) && DistinctDevices(a) && Contested(a)
    ensures Contested(b)
  {
    var i, j :| 0 <= i < j < |a| && !Superseded(a, a[i]) && !Superseded(a, a[j]);
    assert a[i] in b && a[j] in b;
    var k :| 0 <= k < |b| && b[k] == a[i];
    var l :| 0 <= l < |b| && b[l] == a[j];
    SupersededByMembers(a, b, a[i]);
    SupersededByMembers(a, b, a[j]);
    assert k != l;
    if k < l {
      assert !Superseded(b, b[k]) && !Superseded(b, b[l]);
    } else {
      assert !Superseded(b, b[l]) && !Superseded(b, b[k]);
    }
  }

  lemma TiedHeadsEqual(heads: seq<Entry>, v: Entry, w: Entry)
    requires DistinctDevices(heads) && v in heads && w in heads && !Outranks(v, w) && !Outranks(w, v)
    ensures v == w
  {
    var i :| 0 <= i < |heads| && heads[i] == v;
    var j :| 0 <= j < |heads| && heads[j] == w;
  }

  lemma WinnersMatch(x: seq<Log>, y: seq<Log>)
    requires Mergeable(x) && Mergeable(y) && Heads(x) != [] && Heads(y) != []
    requires SameMembers(Heads(x), Heads(y)) && DistinctDevices(Heads(x))
    ensures Greatest(Frontier(Heads(x), Heads(x))) == Greatest(Frontier(Heads(y), Heads(y)))
  {
    var heads, other := Heads(x), Heads(y);
    var w := MergeMeaning(x);
    var v := MergeMeaning(y);
    SupersededByMembers(heads, other, w);
    SupersededByMembers(heads, other, v);
    assert Undominated(other, w) && Undominated(heads, v);
    TiedHeadsEqual(heads, v, w);
  }

  // Everything a merge says except the recovered content follows from the set of heads.
  lemma HeadsDecideMerge(x: seq<Log>, y: seq<Log>) returns (winner: Entry)
    requires Mergeable(x) && Mergeable(y) && Heads(x) != []
    requires SameMembers(Heads(x), Heads(y)) && DistinctDevices(Heads(x)) && DistinctDevices(Heads(y))
    requires forall h <- Heads(x) :: ZeroFree(h.vv)
    ensures var a, b := Merge(x), Merge(y);
            && a.vv == b.vv && a.winnerVv == b.winnerVv && a.winnerDevice == b.winnerDevice && a.conflict == b.conflict
            && winner in Heads(x) && winner == Greatest(Frontier(Heads(x), Heads(x)))
            && a.note == VisibleNote(winner, LatestUpsert(Flatten(x)))
            && b.note == VisibleNote(winner, LatestUpsert(Flatten(y)))
  {
    var heads, other := Heads(x), Heads(y);
    assert heads[0] in other;
    WinnersMatch(x, y);
    winner := MergeMeaning(x);
    var w := MergeMeaning(y);
    JoinAllByMembers(heads, other);
    if Contested(heads) { ContestedByMembers(heads, other); }
    if Contested(other) { ContestedByMembers(other, heads); }
  }

  // Two devices hold the same entries of every log, compacted alike or not.
  predicate SameHoldings(s: System, d1: Device, d2: Device)
    requires Shaped(s) && d1 < |s.disk| && d2 < |s.disk|
  {
    s.have[d1] == s.have[d2]
  }

  lemma SameHoldingsSameHeads(s: System, d1: Device, d2: Device, order1: seq<Device>, order2: seq<Device>)
    requires Inv(s) && d1 < |s.disk| && d2 < |s.disk| && SameHoldings(s, d1, d2)
    requires IsListing(s, d1, order1) && IsListing(s, d2, order2)
    ensures SameMembers(Heads(Files(s, d1, order1)), Heads(Files(s, d2, order2)))
  {
    forall h ensures h in Heads(Files(s, d1, order1)) <==> h in Heads(Files(s, d2, order2)) {
      HeadsOfListing(s, d1, order1, h);
      HeadsOfListing(s, d2, order2, h);
      assert forall t: Device :: t < |s.disk| ==> IsVisibleHead(s, d1, t, h) == IsVisibleHead(s, d2, t, h);
    }
  }

  /** Two devices holding the same entries agree on vector, winner and conflict flag, whatever was compacted or listed first. */
  lemma StrongConvergence(n: nat, steps: seq<Step>, d1: Device, d2: Device, order1: seq<Device>, order2: seq<Device>)
    requires Legal(n, steps) && d1 < |Run(n, steps).disk| && d2 < |Run(n, steps).disk|
    requires IsListing(Run(n, steps), d1, order1) && IsListing(Run(n, steps), d2, order2)
    requires SameHoldings(Run(n, steps), d1, d2)
    ensures var s := Run(n, steps);
            && Mergeable(Files(s, d1, order1)) && Mergeable(Files(s, d2, order2))
            && var a, b := Merge(Files(s, d1, order1)), Merge(Files(s, d2, order2));
            && a.vv == b.vv && a.winnerVv == b.winnerVv && a.winnerDevice == b.winnerDevice && a.conflict == b.conflict
  {
    var s := Run(n, steps);
    RunInv(n, steps);
    ListingHeads(s, d1, order1);
    ListingHeads(s, d2, order2);
    SameHoldingsSameHeads(s, d1, d2, order1, order2);
    var heads2 := Heads(Files(s, d2, order2));
    assert heads2 != [] ==> heads2[0] in heads2;
    if Heads(Files(s, d1, order1)) != [] {
      var _ := HeadsDecideMerge(Files(s, d1, order1), Files(s, d2, order2));
    }
  }

  // ---- Content recovered under a tombstone ----

  // What device d's copy of t's log offers as recovered content.
  function Offer(s: System, d: Device, t: Device): Option<Entry>
    requires Shaped(s) && d < |s.disk| && t < |s.disk|
  {
    LatestUpsert(s.disk[d][t])
  }

  // No other log offers anything newer.
  predicate TopOffer(s: System, d: Device, t: Device)
    requires Shaped(s) && d < |s.disk| && t < |s.disk|
  {
    && Offer(s, d, t).Some?
    && forall u: Device :: u < |s.disk| && Offer(s, d, u).Some? ==>
      Offer(s, d, u).value.timestamp <= Offer(s, d, t).value.timestamp
  }

  lemma LatestUpsertIsUpsert(entries: seq<Entry>)
    ensures LatestUpsert(entries).Some? ==> LatestUpsert(entries).value.op.Upsert? && LatestUpsert(entries).value in entries
  {
    if entries != [] {
      LatestUpsertIsUpsert(entries[..|entries| - 1]);
    }
  }

  // r is what one of the logs offers, and no log offers anything newer.
  predicate IsBestOffer(logs: seq<Log>, r: Option<Entry>) {
    && (forall i :: 0 <= i < |logs| && LatestUpsert(logs[i]).Some? ==>
          r.Some? && LatestUpsert(logs[i]).value.timestamp <= r.value.timestamp)
    && (r.Some? ==> exists i :: 0 <= i < |logs| && LatestUpsert(logs[i]) == r)
  }

  lemma {:induction false} LatestAcrossLogs(logs: seq<Log>)
    ensures IsBestOffer(logs, LatestUpsert(Flatten(logs)))
  {
    if logs != [] {
      var n := |logs| - 1;
      var before, r := LatestUpsert(Flatten(logs[..n])), LatestUpsert(Flatten(logs));
      LatestAcrossLogs(logs[..n]);
      LatestUpsertConcat(Flatten(logs[..n]), logs[n]);
      forall i | 0 <= i < |logs| && LatestUpsert(logs[i]).Some?
        ensures r.Some? && LatestUpsert(logs[i]).value.timestamp <= r.value.timestamp
      {
        if i < n {
          assert logs[..n][i] == logs[i];
        }
      }
      if r.Some? && r != LatestUpsert(logs[n]) {
        var i :| 0 <= i < n && LatestUpsert(logs[..n][i]) == before;
        assert LatestUpsert(logs[i]) == r;
      }
    }
  }

  // A listing recovers one of the top offers.
  lemma RecoveredIsTopOffer(s: System, d: Device, order: seq<Device>)
    requires Shaped(s) && d < |s.disk| && IsListing(s, d, order)
    ensures var r := LatestUpsert(Flatten(Files(s, d, order)));
            if r.None? then forall t: Device :: t < |s.disk| ==> Offer(s, d, t).None?
            else exists t: Device :: t < |s.disk| && TopOffer(s, d, t) && Offer(s, d, t) == r
  {
    var files := Files(s, d, order);
    LatestAcrossLogs(files);
    var r := LatestUpsert(Flatten(files));
    forall t: Device | t < |s.disk| && Offer(s, d, t).Some?
      ensures r.Some? && Offer(s, d, t).value.timestamp <= r.value.timestamp
    {
      var i :| 0 <= i < |order| && order[i] == t;
      assert LatestUpsert(files[i]) == Offer(s, d, t);
    }
    if r.Some? {
      var i :| 0 <= i < |files| && LatestUpsert(files[i]) == r;
      assert TopOffer(s, d, order[i]) && Offer(s, d, order[i]) == r;
    }
  }

  lemma SameHoldingsSameOffers(s: System, d1: Device, d2: Device, t: Device)
    requires Inv(s) && d1 < |s.disk| && d2 < |s.disk| && t < |s.disk| && SameHoldings(s, d1, d2)
    ensures Offer(s, d1, t) == Offer(s, d2, t)
  {
    WrittenBySingleDevice(s.disk[d1][t], t);
    WrittenBySingleDevice(s.disk[d2][t], t);
    assert SameLog(s.disk[d1][t], s.hist[t][..s.have[d1][t]]);
    assert SameLog(s.disk[d2][t], s.hist[t][..s.have[d2][t]]);
    SameLogReadsSame(s.disk[d1][t], s.disk[d2][t]);
  }

  // The newest upserts, when several devices stamped theirs alike, carry the same content.
  predicate TopOffersAgree(s: System, d: Device)
    requires Shaped(s) && d < |s.disk|
  {
    forall t: Device, u: Device :: t < |s.disk| && u < |s.disk| && TopOffer(s, d, t) && TopOffer(s, d, u) ==>
      OfferedContent(s, d, t) == OfferedContent(s, d, u)
  }

  function OfferedContent(s: System, d: Device, t: Device): Option<string>
    requires Shaped(s) && d < |s.disk| && t < |s.disk|
  {
    if Offer(s, d, t).Some? && Offer(s, d, t).value.op.Upsert?
    then Some(Offer(s, d, t).value.op.note.content) else None
  }

  predicate ReadsLive(s: System, d: Device, order: seq<Device>)
    requires Shaped(s) && d < |s.disk| && IsListing(s, d, order) && Mergeable(Files(s, d, order))
  {
    WinnerLive(Files(s, d, order))
  }

  predicate WinnerLive(logs: seq<Log>)
    requires Mergeable(logs)
  {
    Heads(logs) == [] || Greatest(Frontier(Heads(logs), Heads(logs))).op.Upsert?
  }

  lemma LivenessByMembers(x: seq<Log>, y: seq<Log>)
    requires Mergeable(x) && Mergeable(y)
    requires SameMembers(Heads(x), Heads(y)) && DistinctDevices(Heads(x))
    ensures WinnerLive(x) <==> WinnerLive(y)
  {
    assert Heads(y) != [] ==> Heads(y)[0] in Heads(y);
    if Heads(x) != [] {
      assert Heads(x)[0] in Heads(y);
      WinnersMatch(x, y);
    }
  }

  lemma AgreeingOffersReadSame(s: System, d: Device, t: Device, u: Device, winner: Entry)
    requires Shaped(s) && d < |s.disk| && t < |s.disk| && u < |s.disk|
    requires TopOffersAgree(s, d) && TopOffer(s, d, t) && TopOffer(s, d, u)
    ensures VisibleNote(winner, Offer(s, d, t)) == VisibleNote(winner, Offer(s, d, u))
  {
    assert OfferedContent(s, d, t) == OfferedContent(s, d, u);
    LatestUpsertIsUpsert(s.disk[d][t]);
    LatestUpsertIsUpsert(s.disk[d][u]);
  }

  lemma SameHoldingsSameTop(s: System, d1: Device, d2: Device)
    requires Inv(s) && d1 < |s.disk| && d2 < |s.disk| && SameHoldings(s, d1, d2)
    ensures forall t: Device :: t < |s.disk| ==>
              Offer(s, d1, t) == Offer(s, d2, t) && (TopOffer(s, d1, t) <==> TopOffer(s, d2, t))
  {
    forall t: Device | t < |s.disk| ensures Offer(s, d1, t) == Offer(s, d2, t) {
      SameHoldingsSameOffers(s, d1, d2, t);
    }
  }

  lemma SameRecovery(s: System, d1: Device, d2: Device, order1: seq<Device>, order2: seq<Device>, winner: Entry)
    requires Inv(s) && d1 < |s.disk| && d2 < |s.disk| && SameHoldings(s, d1, d2)
    requires IsListing(s, d1, order1) && IsListing(s, d2, order2)
    requires TopOffersAgree(s, d1)
    ensures VisibleNote(winner, LatestUpsert(Flatten(Files(s, d1, order1)))) ==
            VisibleNote(winner, LatestUpsert(Flatten(Files(s, d2, order2))))
  {
    SameHoldingsSameTop(s, d1, d2);
    RecoveredIsTopOffer(s, d1, order1);
    RecoveredIsTopOffer(s, d2, order2);
    var r1, r2 := LatestUpsert(Flatten(Files(s, d1, order1))), LatestUpsert(Flatten(Files(s, d2, order2)));
    if r1.Some? && r2.Some? {
      var t: Device :| t < |s.disk| && TopOffer(s, d1, t) && Offer(s, d1, t) == r1;
      var u: Device :| u < |s.disk| && TopOffer(s, d2, u) && Offer(s, d2, u) == r2;
      AgreeingOffersReadSame(s, d1, t, u, winner);
    }
  }

  lemma SameNote(s: System, d1: Device, d2: Device, order1: seq<Device>, order2: seq<Device>)
    requires Inv(s) && d1 < |s.disk| && d2 < |s.disk| && SameHoldings(s, d1, d2)
    requires IsListing(s, d1, order1) && IsListing(s, d2, order2)
    requires Mergeable(Files(s, d1, order1)) && Mergeable(Files(s, d2, order2))
    requires ReadsLive(s, d1, order1) || TopOffersAgree(s, d1)
    ensures Merge(Files(s, d1, order1)).note == Merge(Files(s, d2, order2)).note
  {
    var x, y := Files(s, d1, order1), Files(s, d2, order2);
    ListingHeads(s, d1, order1);
    ListingHeads(s, d2, order2);
    SameHoldingsSameHeads(s, d1, d2, order1, order2);
    assert Heads(y) != [] ==> Heads(y)[0] in Heads(y);
    if Heads(x) != [] {
      var winner := HeadsDecideMerge(x, y);
      if winner.op.Tombstone? {
        SameRecovery(s, d1, d2, order1, order2, winner);
      }
    }
  }

  // The same files listed with t's log last.
  lemma ListingEndingIn(s: System, d: Device, order: seq<Device>, t: Device) returns (last: seq<Device>)
    requires Shaped(s) && d < |s.disk| && IsListing(s, d, order) && t < |s.disk| && s.disk[d][t] != []
    ensures IsListing(s, d, last) && last != [] && last[|last| - 1] == t
  {
    var i :| 0 <= i < |order| && order[i] == t;
    last := order[..i] + order[i + 1..] + [t];
    forall u: Device | u < |s.disk| && s.disk[d][u] != [] ensures u in last {
      var j :| 0 <= j < |order| && order[j] == u;
      assert last[if j < i then j else if j > i then j - 1 else |last| - 1] == u;
    }
  }

  lemma LastListedRecovered(s: System, d: Device, last: seq<Device>)
    requires Shaped(s) && d < |s.disk| && IsListing(s, d, last) && last != [] && TopOffer(s, d, last[|last| - 1])
    ensures LatestUpsert(Flatten(Files(s, d, last))) == Offer(s, d, last[|last| - 1])
  {
    var files := Files(s, d, last);
    var n := |files| - 1;
    LatestUpsertConcat(Flatten(files[..n]), files[n]);
    LatestAcrossLogs(files[..n]);
    var before := LatestUpsert(Flatten(files[..n]));
    if before.Some? {
      var k :| 0 <= k < n && LatestUpsert(files[..n][k]) == before;
      assert Offer(s, d, last[k]) == before;
    }
  }

  /**
   Two devices holding the same entries read the same note in every directory order, exactly when
   the winner is live or the newest upserts agree: recovery under a tombstone breaks timestamp ties
   by listing position.
   */
  lemma SameNoteIff(n: nat, steps: seq<Step>, d: Device, order: seq<Device>)
    requires Legal(n, steps) && d < |Run(n, steps).disk| && IsListing(Run(n, steps), d, order)
    ensures var s := Run(n, steps);
            && (forall e: Device, o: seq<Device> :: e < |s.disk| && IsListing(s, e, o) ==> Mergeable(Files(s, e, o)))
            && ((forall e: Device, o1: seq<Device>, o2: seq<Device> ::
                   e < |s.disk| && SameHoldings(s, d, e) && IsListing(s, d, o1) && IsListing(s, e, o2) ==>
                     Merge(Files(s, d, o1)).note == Merge(Files(s, e, o2)).note)
                <==> ReadsLive(s, d, order) || TopOffersAgree(s, d))
  {
    var s := Run(n, steps);
    RunInv(n, steps);
    forall e: Device, o: seq<Device> | e < |s.disk| && IsListing(s, e, o) ensures Mergeable(Files(s, e, o)) {
      ListingHeads(s, e, o);
    }
    if ReadsLive(s, d, order) || TopOffersAgree(s, d) {
      forall e: Device, o1: seq<Device>, o2: seq<Device> |
        e < |s.disk| && SameHoldings(s, d, e) && IsListing(s, d, o1) && IsListing(s, e, o2)
        ensures Merge(Files(s, d, o1)).note == Merge(Files(s, e, o2)).note
      {
        LivenessByHoldings(s, d, order, o1);
        SameNote(s, d, e, o1, o2);
      }
    } else {
      var t: Device, u: Device :| t < |s.disk| && u < |s.disk| && TopOffer(s, d, t) && TopOffer(s, d, u) &&
        OfferedContent(s, d, t) != OfferedContent(s, d, u);
      DisagreeingOffers(s, d, order, t, u);
    }
  }

  lemma LivenessByHoldings(s: System, d: Device, order1: seq<Device>, order2: seq<Device>)
    requires Inv(s) && d < |s.disk| && IsListing(s, d, order1) && IsListing(s, d, order2)
    requires Mergeable(Files(s, d, order1)) && Mergeable(Files(s, d, order2))
    ensures ReadsLive(s, d, order1) <==> ReadsLive(s, d, order2)
  {
    ListingHeads(s, d, order1);
    SameHoldingsSameHeads(s, d, d, order1, order2);
    LivenessByMembers(Files(s, d, order1), Files(s, d, order2));
  }

  lemma DisagreeingOffers(s: System, d: Device, order: seq<Device>, t: Device, u: Device)
    requires Inv(s) && d < |s.disk| && IsListing(s, d, order) && t < |s.disk| && u < |s.disk|
    requires TopOffer(s, d, t) && TopOffer(s, d, u) && OfferedContent(s, d, t) != OfferedContent(s, d, u)
    requires forall o: seq<Device> :: IsListing(s, d, o) ==> Mergeable(Files(s, d, o))
    requires !ReadsLive(s, d, order)
    ensures exists o1: seq<Device>, o2: seq<Device> ::
      IsListing(s, d, o1) && IsListing(s, d, o2) && Merge(Files(s, d, o1)).note != Merge(Files(s, d, o2)).note
  {
    var o1 := ListingEndingIn(s, d, order, t);
    var o2 := ListingEndingIn(s, d, order, u);
    LastListedRecovered(s, d, o1);
    LastListedRecovered(s, d, o2);
    LivenessByHoldings(s, d, order, o1);
    ListingHeads(s, d, o1);
    ListingHeads(s, d, o2);
    SameHoldingsSameHeads(s, d, d, o1, o2);
    var winner := HeadsDecideMerge(Files(s, d, o1), Files(s, d, o2));
    LatestUpsertIsUpsert(s.disk[d][t]);
    LatestUpsertIsUpsert(s.disk[d][u]);
    assert Merge(Files(s, d, o1)).note != Merge(Files(s, d, o2)).note;
  }

  // ---- Read your writes ----

  lemma SoleUndominatedWins(logs: seq<Log>, e: Entry)
    requires Mergeable(logs) && DistinctDevices(Heads(logs)) && e in Heads(logs)
    requires forall h <- Heads(logs) :: h != e ==> Dominates(e.vv, h.vv) && !Dominates(h.vv, e.vv)
    ensures var m := Merge(logs);
            && !m.conflict && m.winnerVv == e.vv && m.winnerDevice == Some(e.device)
            && m.note == VisibleNote(e, LatestUpsert(Flatten(logs)))
  {
    var heads := Heads(logs);
    var winner := MergeMeaning(logs);
    forall h <- heads | h != e ensures Superseded(heads, h) {
      assert e in heads && Dominates(e.vv, h.vv) && e.vv != h.vv;
    }
  }

  /**
   Right after an append, on the appending device and in any directory order: the new entry strictly
   dominates every other head, the merge reports no conflict, and it is the new entry that is read.
   */
  lemma ReadYourWrites(n: nat, steps: seq<Step>, d: Device, op: Op, now: Time, order: seq<Device>)
    requires Legal(n, steps) && d < |Run(n, steps).disk|
    requires IsListing(Next(Run(n, steps), Write(d, op, now)), d, order)
    ensures var s' := Next(Run(n, steps), Write(d, op, now));
            var e := NewEntry(Run(n, steps).disk[d], d, op, now);
            var files := Files(s', d, order);
            && Mergeable(files)
            && (forall h <- Heads(files) :: h != e ==> Dominates(e.vv, h.vv) && !Dominates(h.vv, e.vv))
            && !Merge(files).conflict && Merge(files).winnerVv == e.vv && Merge(files).winnerDevice == Some(d)
            && Merge(files).note == VisibleNote(e, LatestUpsert(Flatten(files)))
            && (op.Upsert? ==> Merge(files).note == Some(op.note))
  {
    var s := Run(n, steps);
    RunInv(n, steps);
    var step := Write(d, op, now);
    var s', e := Next(s, step), NewEntry(s.disk[d], d, op, now);
    StepKeepsInv(s, step);
    var files := Files(s', d, order);
    ListingHeads(s', d, order);
    NewEntryIsHead(s, d, op, now, order);
    forall h <- Heads(files) | h != e ensures Dominates(e.vv, h.vv) && !Dominates(h.vv, e.vv) {
      NewEntryDominates(s, d, op, now, order, h);
    }
    SoleUndominatedWins(files, e);
  }

  lemma SeenDominates(s: System, e: Event, f: Event)
    requires Inv(s) && DirectlySeen(s, e, f)
    ensures Dominates(EntryOf(s, f).vv, EntryOf(s, e).vv) && !Dominates(EntryOf(s, e).vv, EntryOf(s, f).vv)
  {
  }

  lemma HeadSeenByNew(s: System, d: Device, op: Op, now: Time, t: Device)
    requires Inv(s) && d < |s.disk| && t < |s.disk| && t != d && s.have[d][t] > 0
    ensures var s' := Next(s, Write(d, op, now));
            s'.have[d][t] == s.have[d][t] && DirectlySeen(s', HeadEvent(s', d, t), Written(s, d))
  {
    WriteAddsOne(s, d, op, now);
  }

  lemma NewEntryDominates(s: System, d: Device, op: Op, now: Time, order: seq<Device>, h: Entry)
    requires Inv(s) && d < |s.disk| && Inv(Next(s, Write(d, op, now)))
    requires IsListing(Next(s, Write(d, op, now)), d, order)
    requires h in Heads(Files(Next(s, Write(d, op, now)), d, order)) && h != NewEntry(s.disk[d], d, op, now)
    ensures var e := NewEntry(s.disk[d], d, op, now); Dominates(e.vv, h.vv) && !Dominates(h.vv, e.vv)
  {
    var s' := Next(s, Write(d, op, now));
    HeadsOfListing(s', d, order, h);
    var t: Device :| t < |s'.disk| && IsVisibleHead(s', d, t, h);
    if t != d {
      HeadSeenByNew(s, d, op, now, t);
      WriteAddsOne(s, d, op, now);
      SeenDominates(s', HeadEvent(s', d, t), Written(s, d));
    }
  }

  lemma NewEntryIsHead(s: System, d: Device, op: Op, now: Time, order: seq<Device>)
    requires Inv(s) && d < |s.disk| && Inv(Next(s, Write(d, op, now)))
    requires IsListing(Next(s, Write(d, op, now)), d, order)
    ensures NewEntry(s.disk[d], d, op, now) in Heads(Files(Next(s, Write(d, op, now)), d, order))
  {
    var s', e := Next(s, Write(d, op, now)), NewEntry(s.disk[d], d, op, now);
    WriteAddsOne(s, d, op, now);
    assert IsVisibleHead(s', d, d, e);
    VisibleHeadListed(s', d, order, d, e);
  }
}
