/** What a diff does to the lines of a mirror: which it keeps, which it rewrites, and what is recorded of that. */
module DiffEffects {
  import opened Wrappers
  import opened VersionVectors
  import opened LineMirror
  import opened LineDiff

  // ---- Lines that a diff does not name ----

  lemma {:induction false} UpdatesName(m: Mirror, ids: seq<LineId>, contents: seq<string>, n: nat, stamp: Stamp)
    requires n <= |ids| && n <= |contents| && forall id <- ids :: id in m.lines
    ensures forall op <- UpdateOps(m, ids, contents, n, stamp) :: op.Update? && op.id in ids[..n]
  {
    if n > 0 {
      UpdatesName(m, ids, contents, n - 1, stamp);
      assert ids[..n] == ids[..n - 1] + [ids[n - 1]];
    }
  }

  lemma {:induction false} DeletesName(m: Mirror, ids: seq<LineId>, n: nat, stamp: Stamp)
    requires n <= |ids| && forall id <- ids :: id in m.lines
    ensures forall op <- DeleteOps(m, ids, n, stamp) :: op.Delete? && op.id in ids[..n]
  {
    if n > 0 {
      DeletesName(m, ids, n - 1, stamp);
      assert ids[..n] == ids[..n - 1] + [ids[n - 1]];
    }
  }

  lemma {:induction false} InsertsName(vv: Vector, anchor: Option<LineId>, contents: seq<string>, supply: seq<LineId>, n: nat, stamp: Stamp)
    requires n <= |contents| && n <= |supply|
    ensures forall op <- InsertOps(vv, anchor, contents, supply, n, stamp) :: op.Insert? && op.id in supply[..n]
  {
    if n > 0 {
      InsertsName(vv, anchor, contents, supply, n - 1, stamp);
      assert supply[..n] == supply[..n - 1] + [supply[n - 1]];
    }
  }

  lemma EndsApart(ids: seq<LineId>, p: nat, i: nat)
    requires p <= i <= |ids| && Distinct(ids)
    ensures Disjoint(ids[p..i], ids[..p]) && Disjoint(ids[p..i], ids[i..])
  {
  }

  lemma WindowMiddle(ids: seq<LineId>, k: Kept, lines: seq<string>)
    requires k.prefix + k.suffix <= |ids| && k.prefix + k.suffix <= |lines|
    ensures var w := WindowOf(ids, k, lines);
            && (forall id <- w.reused :: id in ids[k.prefix..|ids| - k.suffix])
            && (forall id <- w.dropped :: id in ids[k.prefix..|ids| - k.suffix])
  {
    var w, mid := WindowOf(ids, k, lines), ids[k.prefix..|ids| - k.suffix];
    assert mid == w.reused + w.dropped;
  }

  lemma ScriptNames(m: Mirror, w: Window, stamp: Stamp, supply: seq<LineId>)
    requires |w.reused| == |w.rewritten| && |w.added| <= |supply|
    requires (forall id <- w.reused :: id in m.lines) && forall id <- w.dropped :: id in m.lines
    ensures forall op <- ScriptOf(m, w, stamp, supply) ::
              (op.Update? && op.id in w.reused) || (op.Delete? && op.id in w.dropped) || (op.Insert? && op.id in supply)
  {
    UpdatesName(m, w.reused, w.rewritten, |w.reused|, stamp);
    DeletesName(m, w.dropped, |w.dropped|, stamp);
    InsertsName(m.vv, Last(w.front + w.reused), w.added, supply, |w.added|, stamp);
  }

  // The operations update and delete none of these ids, and move nothing.
  predicate Spares(ops: seq<LineOp>, ids: seq<LineId>, supply: seq<LineId>) {
    forall op <- ops :: !op.Move? && (op.Insert? ==> op.id in supply) && (op.Update? || op.Delete? ==> op.id !in ids)
  }

  lemma ScriptSpares(m: Mirror, w: Window, stamp: Stamp, supply: seq<LineId>, ids: seq<LineId>)
    requires |w.reused| == |w.rewritten| && |w.added| <= |supply|
    requires (forall id <- w.reused :: id in m.lines) && forall id <- w.dropped :: id in m.lines
    requires Disjoint(w.reused, ids) && Disjoint(w.dropped, ids)
    ensures Spares(ScriptOf(m, w, stamp, supply), ids, supply)
  {
    ScriptNames(m, w, stamp, supply);
  }

  lemma WindowEnds(ids: seq<LineId>, k: Kept, lines: seq<string>)
    requires k.prefix + k.suffix <= |ids| && k.prefix + k.suffix <= |lines| && Distinct(ids)
    ensures var w := WindowOf(ids, k, lines);
            && Disjoint(w.reused, ids[..k.prefix] + ids[|ids| - k.suffix..])
            && Disjoint(w.dropped, ids[..k.prefix] + ids[|ids| - k.suffix..])
  {
    WindowMiddle(ids, k, lines);
    EndsApart(ids, k.prefix, |ids| - k.suffix);
  }

  /** A diff updates and deletes nothing of the longest common ends, and moves nothing at all. */
  lemma DiffSparesEnds(m: Mirror, lines: seq<string>, stamp: Stamp, supply: seq<LineId>, p: nat, q: nat)
    requires Distinct(m.order) && Supplied(m, supply, |lines|) && LongestEnds(View(m), lines, p, q)
    ensures Spares(DiffOps(m, lines, stamp, supply), Live(m)[..p] + Live(m)[|Live(m)| - q..], supply)
  {
    LongestEndsUnique(View(m), lines, p, q);
    var w := DiffWindow(m, lines);
    WindowIds(m, w);
    LiveApart(m, supply);
    WindowEnds(Live(m), Kept(p, q), lines);
    ScriptSpares(m, w, stamp, supply, Live(m)[..p] + Live(m)[|Live(m)| - q..]);
  }

  // The live lines and the order, when n new lines came in behind those kept in front.
  predicate CameIn(m: Mirror, r: Mirror, front: seq<LineId>, n: nat, back: seq<LineId>, supply: seq<LineId>)
    requires n <= |supply|
  {
    Live(r) == front + supply[..n] + back && r.order == InsertAt(m.order, PlaceAfter(m.order, Last(front)), supply[..n])
  }

  // Of n lines as the body has them the last q are kept, and of those before as many as were there.
  predicate KeptInPlace(m: Mirror, r: Mirror, n: nat, q: nat, supply: seq<LineId>) {
    var ids := Live(m);
    && q <= |ids| && q <= n <= |supply|
    && var cut := if |ids| < n then |ids| - q else n - q;
       CameIn(m, r, ids[..cut], n - q - cut, ids[|ids| - q..], supply)
  }

  /**
   Between the longest common ends the lines are rewritten in place as far as there are new ones for
   them; what old lines are left over goes, what new lines are left over comes in behind the last of
   those kept, before any tombstones.
   */
  lemma DiffKeepsIds(m: Mirror, lines: seq<string>, stamp: Stamp, supply: seq<LineId>, p: nat, q: nat)
    requires Distinct(m.order) && Supplied(m, supply, |lines|) && LongestEnds(View(m), lines, p, q)
    ensures KeptInPlace(m, AppliedAll(m, DiffOps(m, lines, stamp, supply)), |lines|, q, supply)
  {
    LongestEndsUnique(View(m), lines, p, q);
    KeepsIds(m, lines, stamp, supply, Kept(p, q));
  }

  lemma KeepsIds(m: Mirror, lines: seq<string>, stamp: Stamp, supply: seq<LineId>, k: Kept)
    requires Distinct(m.order) && Supplied(m, supply, |lines|) && k == KeptOf(View(m), lines)
    ensures KeptInPlace(m, AppliedAll(m, DiffOps(m, lines, stamp, supply)), |lines|, k.suffix, supply)
  {
    DiffPlaces(m, lines, stamp, supply);
    KeptPlaces(m, AppliedAll(m, DiffOps(m, lines, stamp, supply)), lines, supply, k);
  }

  lemma KeptPlaces(m: Mirror, r: Mirror, lines: seq<string>, supply: seq<LineId>, k: Kept)
    requires k == KeptOf(View(m), lines) && |lines| <= |supply|
    requires var w := DiffWindow(m, lines); CameIn(m, r, w.front + w.reused, |w.added|, w.back, supply)
    ensures KeptInPlace(m, r, |lines|, k.suffix, supply)
  {
    WindowKept(Live(m), k, lines);
  }

  lemma WindowKept(ids: seq<LineId>, k: Kept, lines: seq<string>)
    requires k.prefix + k.suffix <= |ids| && k.prefix + k.suffix <= |lines|
    ensures var w := WindowOf(ids, k, lines);
            var cut := if |ids| < |lines| then |ids| - k.suffix else |lines| - k.suffix;
            w.front + w.reused == ids[..cut] && |w.added| == |lines| - k.suffix - cut && w.back == ids[|ids| - k.suffix..]
  {
  }

  lemma DiffPlaces(m: Mirror, lines: seq<string>, stamp: Stamp, supply: seq<LineId>)
    requires Distinct(m.order) && Supplied(m, supply, |lines|)
    ensures var w := DiffWindow(m, lines);
            CameIn(m, AppliedAll(m, DiffOps(m, lines, stamp, supply)), w.front + w.reused, |w.added|, w.back, supply)
  {
    DiffReachesBody(m, lines, stamp, supply);
    DiffOrder(m, lines, stamp, supply);
  }

  lemma DiffOrder(m: Mirror, lines: seq<string>, stamp: Stamp, supply: seq<LineId>)
    requires Distinct(m.order) && Supplied(m, supply, |lines|)
    ensures var w := DiffWindow(m, lines);
            AppliedAll(m, DiffOps(m, lines, stamp, supply)).order
            == InsertAt(m.order, PlaceAfter(m.order, Last(w.front + w.reused)), supply[..|w.added|])
  {
    var w := DiffWindow(m, lines);
    DiffFits(m, lines, supply);
    WindowIds(m, w);
    FitsParts(w, Text(m), supply);
    ScriptEffect(m, w, stamp, supply);
    AllEffects(m, DiffOps(m, lines, stamp, supply));
  }

  // ---- What a diff records ----

  // One more write by the device.
  ghost predicate OneMore(before: Vector, vv: Vector, d: Device) {
    forall x: Device :: Counter(vv, x) == Counter(before, x) + if x == d then 1 else 0
  }

  lemma JoinIncremented(v: Vector, d: Device)
    ensures OneMore(v, Join(v, Increment(v, d)), d)
  {
  }

  // The line was written once more: rewritten, or deleted with its text kept.
  ghost predicate Rewritten(before: Line, after: Line, stamp: Stamp) {
    && after.createdAt == before.createdAt && after.updatedAt == stamp.at && after.lastWriter == stamp.device
    && OneMore(before.vv, after.vv, stamp.device)
    && (after.deletedAt.None? || (after.deletedAt == Some(stamp.at) && after.content == before.content))
  }

  lemma {:induction false} AppliedInTurn(m: Mirror, a: seq<LineOp>, b: seq<LineOp>)
    ensures AppliedAll(m, a + b) == AppliedAll(AppliedAll(m, a), b)
  {
    if b == [] {
      assert a + b == a;
    } else {
      assert (a + b)[..|a + b| - 1] == a + b[..|b| - 1];
      AppliedInTurn(m, a, b[..|b| - 1]);
    }
  }

  lemma AppliedLast(m: Mirror, ops: seq<LineOp>, op: LineOp)
    ensures AppliedAll(m, ops + [op]) == Applied(AppliedAll(m, ops), op)
  {
    assert (ops + [op])[..|ops|] == ops;
  }

  predicate Names(op: LineOp, id: LineId) {
    !op.Move? && op.id == id
  }

  predicate NoneNames(ops: seq<LineOp>, id: LineId) {
    forall op <- ops :: !Names(op, id)
  }

  lemma {:induction false} UnnamedStays(m: Mirror, ops: seq<LineOp>, id: LineId)
    requires NoneNames(ops, id)
    ensures var r := AppliedAll(m, ops);
            (id in r.lines <==> id in m.lines) && (id in m.lines ==> r.lines[id] == m.lines[id])
  {
    if ops != [] {
      UnnamedStays(m, ops[..|ops| - 1], id);
      assert ops[|ops| - 1] in ops;
    }
  }

  // One operation of the script names the line, and no other does.
  ghost predicate NamedOnce(ops: seq<LineOp>, op: LineOp, id: LineId) {
    Names(op, id) && exists a, b :: ops == a + [op] + b && NoneNames(a, id) && NoneNames(b, id)
  }

  lemma OnceApplied(m: Mirror, ops: seq<LineOp>, op: LineOp, id: LineId) returns (before: Mirror)
    requires NamedOnce(ops, op, id)
    ensures (id in before.lines <==> id in m.lines) && (id in m.lines ==> before.lines[id] == m.lines[id])
    ensures var r, s := AppliedAll(m, ops), Applied(before, op);
            (id in r.lines <==> id in s.lines) && (id in r.lines ==> r.lines[id] == s.lines[id])
  {
    var a, b :| ops == a + [op] + b && NoneNames(a, id) && NoneNames(b, id);
    before := AppliedAll(m, a);
    UnnamedStays(m, a, id);
    AppliedLast(m, a, op);
    AppliedInTurn(m, a + [op], b);
    UnnamedStays(Applied(before, op), b, id);
  }

  lemma OnceThenOthers(ops: seq<LineOp>, op: LineOp, id: LineId, before: seq<LineOp>, after: seq<LineOp>)
    requires NamedOnce(ops, op, id) && NoneNames(before, id) && NoneNames(after, id)
    ensures NamedOnce(before + ops + after, op, id)
  {
    var a, b :| ops == a + [op] + b && NoneNames(a, id) && NoneNames(b, id);
    assert before + ops + after == (before + a) + [op] + (b + after);
    assert NoneNames(before + a, id) && NoneNames(b + after, id);
  }

  lemma OnceLast(earlier: seq<LineOp>, op: LineOp, id: LineId)
    requires NoneNames(earlier, id) && Names(op, id)
    ensures NamedOnce(earlier + [op], op, id)
  {
    var none: seq<LineOp> := [];
    assert earlier + [op] == earlier + [op] + none && NoneNames(none, id);
  }

  lemma OnceStays(earlier: seq<LineOp>, op: LineOp, id: LineId, more: seq<LineOp>)
    requires NamedOnce(earlier, op, id) && NoneNames(more, id)
    ensures NamedOnce(earlier + more, op, id)
  {
    OnceThenOthers(earlier, op, id, [], more);
    assert [] + earlier + more == earlier + more;
  }

  function UpdateOp(m: Mirror, id: LineId, content: string, stamp: Stamp): LineOp
    requires id in m.lines
  {
    Update(id, content, Increment(m.lines[id].vv, stamp.device), stamp.device, stamp.at)
  }

  function DeleteOp(m: Mirror, id: LineId, stamp: Stamp): LineOp
    requires id in m.lines
  {
    Delete(id, stamp.at, Increment(m.lines[id].vv, stamp.device), stamp.device, stamp.at)
  }

  lemma DistinctPrefix(ids: seq<LineId>, i: nat, n: nat)
    requires Distinct(ids) && n <= i < |ids|
    ensures ids[i] !in ids[..n]
  {
  }

  lemma {:induction false} UpdatedOnce(m: Mirror, ids: seq<LineId>, contents: seq<string>, n: nat, stamp: Stamp, i: nat)
    requires i < n <= |ids| && n <= |contents| && Distinct(ids) && forall id <- ids :: id in m.lines
    ensures var ops := UpdateOps(m, ids, contents, n, stamp);
            if m.lines[ids[i]].content == contents[i] then NoneNames(ops, ids[i])
            else NamedOnce(ops, UpdateOp(m, ids[i], contents[i], stamp), ids[i])
  {
    var earlier := UpdateOps(m, ids, contents, n - 1, stamp);
    var last := if m.lines[ids[n - 1]].content != contents[n - 1] then [UpdateOp(m, ids[n - 1], contents[n - 1], stamp)] else [];
    assert UpdateOps(m, ids, contents, n, stamp) == earlier + last;
    if i == n - 1 {
      UpdatesName(m, ids, contents, n - 1, stamp);
      DistinctPrefix(ids, i, n - 1);
      if last != [] {
        OnceLast(earlier, last[0], ids[i]);
      }
    } else {
      UpdatedOnce(m, ids, contents, n - 1, stamp, i);
      assert NoneNames(last, ids[i]);
      if m.lines[ids[i]].content != contents[i] {
        OnceStays(earlier, UpdateOp(m, ids[i], contents[i], stamp), ids[i], last);
      }
    }
  }

  lemma {:induction false} DeletedOnce(m: Mirror, ids: seq<LineId>, n: nat, stamp: Stamp, i: nat)
    requires i < n <= |ids| && Distinct(ids) && forall id <- ids :: id in m.lines
    ensures NamedOnce(DeleteOps(m, ids, n, stamp), DeleteOp(m, ids[i], stamp), ids[i])
  {
    var earlier := DeleteOps(m, ids, n - 1, stamp);
    if i == n - 1 {
      DeletesName(m, ids, n - 1, stamp);
      DistinctPrefix(ids, i, n - 1);
      OnceLast(earlier, DeleteOp(m, ids[i], stamp), ids[i]);
    } else {
      DeletedOnce(m, ids, n - 1, stamp, i);
      OnceStays(earlier, DeleteOp(m, ids[i], stamp), ids[i], [DeleteOp(m, ids[n - 1], stamp)]);
    }
  }

  lemma {:induction false} InsertedOnce(vv: Vector, anchor: Option<LineId>, contents: seq<string>, supply: seq<LineId>, n: nat, stamp: Stamp, i: nat)
    requires i < n <= |contents| && n <= |supply| && Distinct(supply)
    ensures NamedOnce(InsertOps(vv, anchor, contents, supply, n, stamp), InsertOp(vv, anchor, contents, supply, i, stamp), supply[i])
  {
    var earlier := InsertOps(vv, anchor, contents, supply, n - 1, stamp);
    if i == n - 1 {
      InsertsName(vv, anchor, contents, supply, n - 1, stamp);
      DistinctPrefix(supply, i, n - 1);
      OnceLast(earlier, InsertOp(vv, anchor, contents, supply, i, stamp), supply[i]);
    } else {
      InsertedOnce(vv, anchor, contents, supply, n - 1, stamp, i);
      OnceStays(earlier, InsertOp(vv, anchor, contents, supply, i, stamp), supply[i], [InsertOp(vv, anchor, contents, supply, n - 1, stamp)]);
    }
  }

  lemma {:induction false} BumpedCounters(vv: Vector, d: Device, n: nat)
    ensures forall x: Device :: Counter(Bumped(vv, d, n), x) == Counter(vv, x) + if x == d then n else 0
  {
    if n > 0 {
      BumpedCounters(vv, d, n - 1);
    }
  }

  lemma JoinCounters(a: Vector, b: Vector)
    ensures forall x: Device :: Counter(Join(a, b), x) == if Counter(a, x) >= Counter(b, x) then Counter(a, x) else Counter(b, x)
  {
  }

  lemma {:induction false} NoInsertKeepsVector(m: Mirror, ops: seq<LineOp>)
    requires forall op <- ops :: op.Update? || op.Delete?
    ensures AppliedAll(m, ops).vv == m.vv
  {
    if ops != [] {
      NoInsertKeepsVector(m, ops[..|ops| - 1]);
      assert ops[|ops| - 1] in ops;
    }
  }

  ghost predicate Raised(before: Vector, vv: Vector, d: Device, n: nat) {
    forall x: Device :: Counter(vv, x) == Counter(before, x) + if x == d then n else 0
  }

  lemma RaisedJoin(before: Vector, x: Vector, y: Vector, d: Device, n: nat)
    requires n > 0 && Raised(before, x, d, n - 1) && Raised(before, y, d, n)
    ensures Raised(before, Join(x, y), d, n)
  {
    JoinCounters(x, y);
  }

  lemma InsertVector(m: Mirror, op: LineOp)
    requires op.Insert?
    ensures Applied(m, op).vv == Join(m.vv, op.vv)
  {
  }

  lemma OneMoreInsert(m: Mirror, before: Vector, op: LineOp, d: Device, n: nat)
    requires op.Insert? && n > 0 && Raised(before, m.vv, d, n - 1) && op.vv == Bumped(before, d, n)
    ensures Raised(before, Applied(m, op).vv, d, n)
  {
    BumpedCounters(before, d, n);
    InsertVector(m, op);
    RaisedJoin(before, m.vv, op.vv, d, n);
  }

  // Inserts, each carrying one write more than the one before it.
  predicate CountedInserts(ops: seq<LineOp>, before: Vector, d: Device) {
    forall i :: 0 <= i < |ops| ==> ops[i].Insert? && ops[i].vv == Bumped(before, d, i + 1)
  }

  lemma {:induction false} CountedInsertsRaise(m: Mirror, ops: seq<LineOp>, d: Device)
    requires CountedInserts(ops, m.vv, d)
    ensures Raised(m.vv, AppliedAll(m, ops).vv, d, |ops|)
  {
    if ops != [] {
      var n := |ops| - 1;
      CountedInsertsRaise(m, ops[..n], d);
      OneMoreInsert(AppliedAll(m, ops[..n]), m.vv, ops[n], d, n + 1);
    }
  }

  lemma {:induction false} InsertsAreCounted(vv: Vector, anchor: Option<LineId>, contents: seq<string>, supply: seq<LineId>, n: nat, stamp: Stamp)
    requires n <= |contents| && n <= |supply|
    ensures |InsertOps(vv, anchor, contents, supply, n, stamp)| == n
    ensures CountedInserts(InsertOps(vv, anchor, contents, supply, n, stamp), vv, stamp.device)
  {
    if n > 0 {
      InsertsAreCounted(vv, anchor, contents, supply, n - 1, stamp);
    }
  }

  lemma InsertsRaiseVector(m: Mirror, anchor: Option<LineId>, contents: seq<string>, supply: seq<LineId>, n: nat, stamp: Stamp)
    requires n <= |contents| && n <= |supply|
    ensures Raised(m.vv, AppliedAll(m, InsertOps(m.vv, anchor, contents, supply, n, stamp)).vv, stamp.device, n)
  {
    InsertsAreCounted(m.vv, anchor, contents, supply, n, stamp);
    CountedInsertsRaise(m, InsertOps(m.vv, anchor, contents, supply, n, stamp), stamp.device);
  }

  // ---- Main results ----

  lemma UpdateRewrites(m: Mirror, ops: seq<LineOp>, id: LineId, content: string, stamp: Stamp)
    requires id in m.lines && NamedOnce(ops, UpdateOp(m, id, content, stamp), id)
    ensures var r := AppliedAll(m, ops);
            id in r.lines && Rewritten(m.lines[id], r.lines[id], stamp) && r.lines[id].deletedAt.None? && r.lines[id].content == content
  {
    var before := OnceApplied(m, ops, UpdateOp(m, id, content, stamp), id);
    JoinIncremented(m.lines[id].vv, stamp.device);
  }

  lemma ReusedRecord(m: Mirror, w: Window, stamp: Stamp, supply: seq<LineId>, i: nat)
    requires Fits(w, Text(m), supply) && i < |w.reused|
    requires (forall id <- w.reused :: id in m.lines) && forall id <- w.dropped :: id in m.lines
    ensures var id, r := w.reused[i], AppliedAll(m, ScriptOf(m, w, stamp, supply));
            && id in r.lines
            && if m.lines[id].content == w.rewritten[i] then r.lines[id] == m.lines[id]
               else Rewritten(m.lines[id], r.lines[id], stamp) && r.lines[id].deletedAt.None? && r.lines[id].content == w.rewritten[i]
  {
    var id := w.reused[i];
    FitsParts(w, Text(m), supply);
    var updates := UpdateOps(m, w.reused, w.rewritten, |w.reused|, stamp);
    var others := DeleteOps(m, w.dropped, |w.dropped|, stamp) + InsertOps(m.vv, Last(w.front + w.reused), w.added, supply, |w.added|, stamp);
    assert ScriptOf(m, w, stamp, supply) == updates + others;
    OthersDoNotName(m, w, stamp, supply, id);
    UpdatedOnce(m, w.reused, w.rewritten, |w.reused|, stamp, i);
    if m.lines[id].content == w.rewritten[i] {
      UnnamedStays(m, updates + others, id);
    } else {
      OnceStays(updates, UpdateOp(m, id, w.rewritten[i], stamp), id, others);
      UpdateRewrites(m, updates + others, id, w.rewritten[i], stamp);
    }
  }

  lemma OthersDoNotName(m: Mirror, w: Window, stamp: Stamp, supply: seq<LineId>, id: LineId)
    requires |w.added| <= |supply| && (forall x <- w.dropped :: x in m.lines) && id !in w.dropped && id !in supply
    ensures NoneNames(DeleteOps(m, w.dropped, |w.dropped|, stamp) + InsertOps(m.vv, Last(w.front + w.reused), w.added, supply, |w.added|, stamp), id)
  {
    DeletesName(m, w.dropped, |w.dropped|, stamp);
    InsertsName(m.vv, Last(w.front + w.reused), w.added, supply, |w.added|, stamp);
  }

  lemma DroppedRecord(m: Mirror, w: Window, stamp: Stamp, supply: seq<LineId>, i: nat)
    requires Fits(w, Text(m), supply) && i < |w.dropped| && Distinct(w.dropped)
    requires (forall id <- w.reused :: id in m.lines) && (forall id <- w.dropped :: id in m.lines && id !in supply)
    ensures var id, r := w.dropped[i], AppliedAll(m, ScriptOf(m, w, stamp, supply));
            id in r.lines && Rewritten(m.lines[id], r.lines[id], stamp) && r.lines[id].deletedAt.Some?
  {
    var id := w.dropped[i];
    FitsParts(w, Text(m), supply);
    var updates, deletes := UpdateOps(m, w.reused, w.rewritten, |w.reused|, stamp), DeleteOps(m, w.dropped, |w.dropped|, stamp);
    var inserts := InsertOps(m.vv, Last(w.front + w.reused), w.added, supply, |w.added|, stamp);
    UpdatesName(m, w.reused, w.rewritten, |w.reused|, stamp);
    InsertsName(m.vv, Last(w.front + w.reused), w.added, supply, |w.added|, stamp);
    assert w.reused[..|w.reused|] == w.reused;
    DeletedOnce(m, w.dropped, |w.dropped|, stamp, i);
    OnceThenOthers(deletes, DeleteOp(m, id, stamp), id, updates, inserts);
    var before := OnceApplied(m, updates + deletes + inserts, DeleteOp(m, id, stamp), id);
    JoinIncremented(m.lines[id].vv, stamp.device);
  }

  lemma InsertWrites(m: Mirror, ops: seq<LineOp>, op: LineOp, id: LineId)
    requires NamedOnce(ops, op, id) && op.Insert?
    ensures var r := AppliedAll(m, ops);
            id in r.lines && r.lines[id] == Line(op.content, op.at, op.at, None, op.vv, op.lastWriter)
  {
    var before := OnceApplied(m, ops, op, id);
  }

  lemma AddedOnce(m: Mirror, w: Window, stamp: Stamp, supply: seq<LineId>, i: nat)
    requires Fits(w, Text(m), supply) && i < |w.added|
    requires (forall id <- w.reused :: id in m.lines) && (forall id <- w.dropped :: id in m.lines)
    requires supply[i] !in w.reused && supply[i] !in w.dropped
    ensures NamedOnce(ScriptOf(m, w, stamp, supply), InsertOp(m.vv, Last(w.front + w.reused), w.added, supply, i, stamp), supply[i])
  {
    var id, anchor := supply[i], Last(w.front + w.reused);
    var updates, deletes := UpdateOps(m, w.reused, w.rewritten, |w.reused|, stamp), DeleteOps(m, w.dropped, |w.dropped|, stamp);
    var inserts := InsertOps(m.vv, anchor, w.added, supply, |w.added|, stamp);
    UpdatesName(m, w.reused, w.rewritten, |w.reused|, stamp);
    DeletesName(m, w.dropped, |w.dropped|, stamp);
    assert NoneNames(updates + deletes, id);
    InsertedOnce(m.vv, anchor, w.added, supply, |w.added|, stamp, i);
    OnceThenOthers(inserts, InsertOp(m.vv, anchor, w.added, supply, i, stamp), id, updates + deletes, []);
    assert updates + deletes + inserts + [] == ScriptOf(m, w, stamp, supply);
  }

  lemma AddedBy(m: Mirror, w: Window, stamp: Stamp, supply: seq<LineId>, i: nat) returns (op: LineOp)
    requires Fits(w, Text(m), supply) && i < |w.added|
    requires (forall id <- w.reused :: id in m.lines) && (forall id <- w.dropped :: id in m.lines)
    requires supply[i] !in w.reused && supply[i] !in w.dropped
    ensures op.Insert? && op.content == w.added[i] && op.at == stamp.at && op.lastWriter == stamp.device
    ensures Raised(m.vv, op.vv, stamp.device, i + 1)
    ensures NamedOnce(ScriptOf(m, w, stamp, supply), op, supply[i])
  {
    op := InsertOp(m.vv, Last(w.front + w.reused), w.added, supply, i, stamp);
    AddedOnce(m, w, stamp, supply, i);
    BumpedCounters(m.vv, stamp.device, i + 1);
  }

  lemma AddedRecord(m: Mirror, w: Window, stamp: Stamp, supply: seq<LineId>, i: nat)
    requires Fits(w, Text(m), supply) && i < |w.added|
    requires (forall id <- w.reused :: id in m.lines) && (forall id <- w.dropped :: id in m.lines)
    requires supply[i] !in w.reused && supply[i] !in w.dropped
    ensures var id, r := supply[i], AppliedAll(m, ScriptOf(m, w, stamp, supply));
            && id in r.lines && Raised(m.vv, r.lines[id].vv, stamp.device, i + 1)
            && r.lines[id] == Line(w.added[i], stamp.at, stamp.at, None, r.lines[id].vv, stamp.device)
  {
    var op := AddedBy(m, w, stamp, supply, i);
    InsertWrites(m, ScriptOf(m, w, stamp, supply), op, supply[i]);
  }

  lemma ScriptRaisesVector(m: Mirror, w: Window, stamp: Stamp, supply: seq<LineId>)
    requires |w.reused| == |w.rewritten| && |w.added| <= |supply|
    requires (forall id <- w.reused :: id in m.lines) && (forall id <- w.dropped :: id in m.lines)
    ensures Raised(m.vv, AppliedAll(m, ScriptOf(m, w, stamp, supply)).vv, stamp.device, |w.added|)
  {
    var first := UpdateOps(m, w.reused, w.rewritten, |w.reused|, stamp) + DeleteOps(m, w.dropped, |w.dropped|, stamp);
    UpdatesName(m, w.reused, w.rewritten, |w.reused|, stamp);
    DeletesName(m, w.dropped, |w.dropped|, stamp);
    NoInsertKeepsVector(m, first);
    var mid := AppliedAll(m, first);
    AppliedInTurn(m, first, InsertOps(m.vv, Last(w.front + w.reused), w.added, supply, |w.added|, stamp));
    InsertsRaiseVector(mid, Last(w.front + w.reused), w.added, supply, |w.added|, stamp);
  }

  lemma UnnamedByDiff(m: Mirror, w: Window, stamp: Stamp, supply: seq<LineId>, id: LineId)
    requires |w.reused| == |w.rewritten| && |w.added| <= |supply|
    requires (forall x <- w.reused :: x in m.lines) && (forall x <- w.dropped :: x in m.lines)
    requires id in m.lines && id !in w.reused && id !in w.dropped && id !in supply
    ensures id in AppliedAll(m, ScriptOf(m, w, stamp, supply)).lines
    ensures AppliedAll(m, ScriptOf(m, w, stamp, supply)).lines[id] == m.lines[id]
  {
    ScriptNames(m, w, stamp, supply);
    UnnamedStays(m, ScriptOf(m, w, stamp, supply), id);
  }

  lemma DroppedApart(m: Mirror, lines: seq<string>, supply: seq<LineId>)
    requires Distinct(m.order) && Supplied(m, supply, |lines|)
    ensures var w := DiffWindow(m, lines);
            Fits(w, Text(m), supply) && Distinct(w.dropped) && Disjoint(w.dropped, supply) && Disjoint(w.reused, supply)
  {
    var w := DiffWindow(m, lines);
    DiffFits(m, lines, supply);
    FitsParts(w, Text(m), supply);
    DistinctParts(w.front + w.reused + w.dropped, w.back);
    DistinctParts(w.front + w.reused, w.dropped);
    DisjointParts(w.front + w.reused + w.dropped, w.back, supply);
    DisjointParts(w.front + w.reused, w.dropped, supply);
  }

  // Both show, and the same text; or neither does.
  predicate ShowsAs(a: Line, b: Line) {
    (a.deletedAt.None? <==> b.deletedAt.None?) && (a.deletedAt.None? ==> a.content == b.content)
  }

  ghost predicate Recorded(m: Mirror, r: Mirror, id: LineId, stamp: Stamp)
    requires id in m.lines
  {
    && id in r.lines
    && if ShowsAs(m.lines[id], r.lines[id]) then r.lines[id] == m.lines[id] else Rewritten(m.lines[id], r.lines[id], stamp)
  }

  lemma LiveIn(m: Mirror, ids: seq<LineId>)
    requires forall id <- ids :: id in Text(m)
    ensures forall id <- ids :: id in m.lines && m.lines[id].deletedAt.None?
  {
  }

  lemma ScriptRecords(m: Mirror, w: Window, stamp: Stamp, supply: seq<LineId>, id: LineId)
    requires Fits(w, Text(m), supply) && Distinct(w.dropped) && Disjoint(w.dropped, supply)
    requires (forall x <- w.reused :: x in m.lines && m.lines[x].deletedAt.None?)
    requires (forall x <- w.dropped :: x in m.lines && m.lines[x].deletedAt.None?)
    requires id in m.lines && id !in supply
    ensures Recorded(m, AppliedAll(m, ScriptOf(m, w, stamp, supply)), id, stamp)
  {
    if id in w.reused {
      var i :| 0 <= i < |w.reused| && w.reused[i] == id;
      ReusedRecord(m, w, stamp, supply, i);
    } else if id in w.dropped {
      var i :| 0 <= i < |w.dropped| && w.dropped[i] == id;
      DroppedRecord(m, w, stamp, supply, i);
    } else {
      UnnamedByDiff(m, w, stamp, supply, id);
    }
  }

  /**
   Of a line that was there, a diff leaves everything as it was if it shows as before; and otherwise
   counts one more write by the device in the line's vector, and notes the writer and the time.
   */
  lemma DiffRecordsLine(m: Mirror, lines: seq<string>, stamp: Stamp, supply: seq<LineId>, id: LineId)
    requires Distinct(m.order) && Supplied(m, supply, |lines|) && id in m.lines && id !in supply
    ensures Recorded(m, AppliedAll(m, DiffOps(m, lines, stamp, supply)), id, stamp)
  {
    var w := DiffWindow(m, lines);
    WindowIds(m, w);
    LiveIn(m, w.reused);
    LiveIn(m, w.dropped);
    DroppedApart(m, lines, supply);
    ScriptRecords(m, w, stamp, supply, id);
  }

  // The k-th new line: written once, at the stamp, with a vector one write of the device past the one before it.
  ghost predicate NewLine(m: Mirror, r: Mirror, id: LineId, k: nat, stamp: Stamp) {
    && id in r.lines && Raised(m.vv, r.lines[id].vv, stamp.device, k + 1)
    && r.lines[id] == Line(r.lines[id].content, stamp.at, stamp.at, None, r.lines[id].vv, stamp.device)
  }

  lemma ScriptRecordsNew(m: Mirror, w: Window, stamp: Stamp, supply: seq<LineId>)
    requires Fits(w, Text(m), supply) && Disjoint(w.dropped, supply) && Disjoint(w.reused, supply)
    requires (forall id <- w.reused :: id in m.lines) && (forall id <- w.dropped :: id in m.lines)
    ensures var r := AppliedAll(m, ScriptOf(m, w, stamp, supply));
            && Raised(m.vv, r.vv, stamp.device, |w.added|)
            && forall i :: 0 <= i < |w.added| ==> NewLine(m, r, supply[i], i, stamp)
  {
    ScriptRaisesVector(m, w, stamp, supply);
    forall i | 0 <= i < |w.added| ensures NewLine(m, AppliedAll(m, ScriptOf(m, w, stamp, supply)), supply[i], i, stamp) {
      assert supply[i] in supply;
      AddedRecord(m, w, stamp, supply, i);
    }
  }

  /** New lines are as many as the body has more than the mirror showed; each carries a vector of its own, and the mirror's counts them all. */
  lemma DiffRecordsNewLines(m: Mirror, lines: seq<string>, stamp: Stamp, supply: seq<LineId>)
    requires Distinct(m.order) && Supplied(m, supply, |lines|)
    ensures var r, n := AppliedAll(m, DiffOps(m, lines, stamp, supply)), if |lines| > |View(m)| then |lines| - |View(m)| else 0;
            Raised(m.vv, r.vv, stamp.device, n) && forall i :: 0 <= i < n ==> NewLine(m, r, supply[i], i, stamp)
  {
    var w := DiffWindow(m, lines);
    WindowIds(m, w);
    DroppedApart(m, lines, supply);
    ScriptRecordsNew(m, w, stamp, supply);
    WindowKept(Live(m), KeptOf(View(m), lines), lines);
  }

  /** So no two diffs by one device ever give a line the same vector. */
  lemma VectorsTellVersions(m: Mirror, first: seq<string>, second: seq<string>, stamp: Stamp, later: Stamp,
                            supply: seq<LineId>, more: seq<LineId>, id: LineId)
    requires Distinct(m.order) && Supplied(m, supply, |first|) && id in m.lines && id !in supply && id !in more
    requires Distinct(AppliedAll(m, DiffOps(m, first, stamp, supply)).order)
    requires Supplied(AppliedAll(m, DiffOps(m, first, stamp, supply)), more, |second|)
    ensures var r := AppliedAll(m, DiffOps(m, first, stamp, supply));
            var s := AppliedAll(r, DiffOps(r, second, later, more));
            id in r.lines && id in s.lines && (r.lines[id].vv == s.lines[id].vv ==> r.lines[id] == s.lines[id])
  {
    var r := AppliedAll(m, DiffOps(m, first, stamp, supply));
    DiffRecordsLine(m, first, stamp, supply, id);
    DiffRecordsLine(r, second, later, more, id);
    var s := AppliedAll(r, DiffOps(r, second, later, more));
    if !ShowsAs(r.lines[id], s.lines[id]) {
      assert Counter(s.lines[id].vv, later.device) == Counter(r.lines[id].vv, later.device) + 1;
    }
  }
}
