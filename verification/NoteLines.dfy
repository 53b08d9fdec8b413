/** The mirror as the program keeps it, with the limits of the note format. */
module NoteLinesState {
  import opened Wrappers
  import opened VersionVectors
  import opened TextLines
  import opened LineMirror
  import opened LineDiff

  // ---- Format limits ----

  const MAX_LINE_BYTES := 4096
  const MAX_LINES_PER_NOTE := 65536

  datatype LimitViolation = LineTooLong(bytes: nat) | TooManyLines(lines: nat)

  predicate WithinLineLimit(lines: seq<string>, k: nat)
    requires k <= |lines|
  {
    forall i :: 0 <= i < k ==> |lines[i]| <= MAX_LINE_BYTES
  }

  // The first line that is too long is reported before the number of lines is looked at.
  function Violation(lines: seq<string>, k: nat := 0): (v: Option<LimitViolation>)
    requires k <= |lines| && WithinLineLimit(lines, k)
    ensures match v
            case None => |lines| <= MAX_LINES_PER_NOTE && WithinLineLimit(lines, |lines|)
            case Some(TooManyLines(n)) => n == |lines| > MAX_LINES_PER_NOTE && WithinLineLimit(lines, |lines|)
            case Some(LineTooLong(n)) =>
              exists i :: 0 <= i < |lines| && WithinLineLimit(lines, i) && n == |lines[i]| > MAX_LINE_BYTES
    decreases |lines| - k
  {
    if k == |lines| then
      if |lines| > MAX_LINES_PER_NOTE then Some(TooManyLines(|lines|)) else None
    else if |lines[k]| > MAX_LINE_BYTES then Some(LineTooLong(|lines[k]|))
    else Violation(lines, k + 1)
  }

  method CheckBody(body: string) returns (v: Option<LimitViolation>)
    ensures v == Violation(LinesOf(body))
  {
    if body == "" {
      return None;
    }
    var lines := SplitLines(body);
    for k := 0 to |lines|
      invariant WithinLineLimit(lines, k) && Violation(lines, k) == Violation(lines)
    {
      if |lines[k]| > MAX_LINE_BYTES {
        return Some(LineTooLong(|lines[k]|));
      }
    }
    v := if |lines| > MAX_LINES_PER_NOTE then Some(TooManyLines(|lines|)) else None;
  }

  /** A body is within the limits exactly if it has no line over 4096 bytes and at most 65 536 lines. */
  lemma WithinLimitsIff(body: string)
    ensures Violation(LinesOf(body)).None? <==>
            |LinesOf(body)| <= 65536 && forall line <- LinesOf(body) :: |line| <= 4096
  {
    var lines := LinesOf(body);
    if v :| Violation(lines) == Some(v) && v.LineTooLong? {
      var i :| 0 <= i < |lines| && v.bytes == |lines[i]| > MAX_LINE_BYTES;
      assert lines[i] in lines;
    }
  }

  lemma LastOfFront(ids: seq<LineId>, n: nat)
    requires n <= |ids|
    ensures Last(ids[..n]) == if n > 0 then Some(ids[n - 1]) else None
  {
  }

  // ---- The mirror the program keeps ----

  /** The mirror of one note, updated in place. */
  class NoteLines {
    var order: seq<LineId>
    var lines: map<LineId, Line>
    var vv: Vector

    ghost function Value(): Mirror
      reads this
    {
      Mirror(order, lines, vv)
    }

    constructor (m: Mirror)
      ensures Value() == m
    {
      order, lines, vv := m.order, m.lines, m.vv;
    }

    method Apply(op: LineOp)
      modifies this
      ensures Value() == Applied(old(Value()), op)
    {
      match op
      case Insert(after, id, content, opVv, writer, at) =>
        order := InsertAt(order, PlaceAfter(order, after), [id]);
        lines := lines[id := Line(content, at, at, None, opVv, writer)];
        vv := JoinByLoop(vv, opVv);
      case Update(id, content, opVv, writer, at) =>
        if id in lines {
          var joined := JoinByLoop(lines[id].vv, opVv);
          lines := lines[id := Line(content, lines[id].createdAt, at, None, joined, writer)];
        }
      case Delete(id, deletedAt, opVv, writer, at) =>
        if id in lines {
          var joined := JoinByLoop(lines[id].vv, opVv);
          lines := lines[id := Line(lines[id].content, lines[id].createdAt, at, Some(deletedAt), joined, writer)];
        }
      case Move(ids, after, opVv, _, _) =>
        order := Without(order, ids);
        order := InsertAt(order, PlaceAfter(order, after), ids);
        vv := JoinByLoop(vv, opVv);
    }

    method ApplyEach(ops: seq<LineOp>)
      modifies this
      ensures Value() == AppliedAll(old(Value()), ops)
    {
      for k := 0 to |ops|
        invariant Value() == AppliedAll(old(Value()), ops[..k])
      {
        Apply(ops[k]);
        assert ops[..k + 1][..k] == ops[..k];
      }
      assert ops[..|ops|] == ops;
    }

    /** Turns the mirror into the body, unless the body breaks a format limit; `supply` stands for the random ids of new lines. */
    method DiffBody(body: string, stamp: Stamp, supply: seq<LineId>) returns (violation: Option<LimitViolation>, ops: seq<LineOp>)
      requires Distinct(order) && Supplied(Value(), supply, |LinesOf(body)|)
      modifies this
      ensures violation == Violation(LinesOf(body))
      ensures violation.Some? ==> Value() == old(Value()) && ops == []
      ensures violation.None? ==> ops == DiffOps(old(Value()), LinesOf(body), stamp, supply)
      ensures violation.None? ==> Value() == AppliedAll(old(Value()), ops) && Distinct(order)
      ensures violation.None? ==> Materialize(Value()) == body
    {
      ops := [];
      violation := CheckBody(body);
      if violation.Some? {
        return;
      }
      var newLines := LinesOf(body);
      ops := Script(newLines, stamp, supply);
      DiffReachesBody(Value(), newLines, stamp, supply);
      JoinSplit(body);
      ApplyEach(ops);
    }

    method KeptEnds(oldContents: seq<string>, newLines: seq<string>) returns (prefix: nat, suffix: nat)
      ensures Kept(prefix, suffix) == KeptOf(oldContents, newLines)
      ensures LongestEnds(oldContents, newLines, prefix, suffix)
    {
      KeepsLongestEnds(oldContents, newLines);
      prefix := 0;
      while prefix < |oldContents| && prefix < |newLines| && oldContents[prefix] == newLines[prefix]
        invariant SamePrefix(oldContents, newLines, prefix)
        invariant CommonPrefix(oldContents, newLines, prefix) == CommonPrefix(oldContents, newLines)
      {
        prefix := prefix + 1;
      }
      suffix := 0;
      while suffix < |oldContents| - prefix && suffix < |newLines| - prefix
            && oldContents[|oldContents| - 1 - suffix] == newLines[|newLines| - 1 - suffix]
        invariant SameSuffix(oldContents, newLines, suffix) && prefix + suffix <= |oldContents| && prefix + suffix <= |newLines|
        invariant CommonSuffix(oldContents, newLines, prefix, suffix) == CommonSuffix(oldContents, newLines, prefix)
      {
        suffix := suffix + 1;
      }
    }

    method Updates(ids: seq<LineId>, contents: seq<string>, stamp: Stamp) returns (ops: seq<LineOp>)
      requires |ids| == |contents| && forall id <- ids :: id in lines
      ensures ops == UpdateOps(Value(), ids, contents, |ids|, stamp)
    {
      ops := [];
      for i := 0 to |ids|
        invariant ops == UpdateOps(Value(), ids, contents, i, stamp)
      {
        var line := lines[ids[i]];
        if line.content != contents[i] {
          ops := ops + [Update(ids[i], contents[i], Increment(line.vv, stamp.device), stamp.device, stamp.at)];
        }
      }
    }

    method Deletes(ids: seq<LineId>, stamp: Stamp) returns (ops: seq<LineOp>)
      requires forall id <- ids :: id in lines
      ensures ops == DeleteOps(Value(), ids, |ids|, stamp)
    {
      ops := [];
      for i := 0 to |ids|
        invariant ops == DeleteOps(Value(), ids, i, stamp)
      {
        ops := ops + [Delete(ids[i], stamp.at, Increment(lines[ids[i]].vv, stamp.device), stamp.device, stamp.at)];
      }
    }

    method Inserts(behind: Option<LineId>, contents: seq<string>, supply: seq<LineId>, stamp: Stamp) returns (ops: seq<LineOp>)
      requires |contents| <= |supply|
      ensures ops == InsertOps(vv, behind, contents, supply, |contents|, stamp)
    {
      ops := [];
      var anchor, orderVv := behind, vv;
      for i := 0 to |contents|
        invariant orderVv == Bumped(vv, stamp.device, i) && anchor == AnchorOf(behind, supply, i)
        invariant ops == InsertOps(vv, behind, contents, supply, i, stamp)
      {
        orderVv := Increment(orderVv, stamp.device);
        ops := ops + [Insert(anchor, supply[i], contents[i], orderVv, stamp.device, stamp.at)];
        anchor := Some(supply[i]);
      }
    }

    // The parts of both lists between the kept ends, and the line that new ones go behind.
    static method Middle(oldIds: seq<LineId>, newLines: seq<string>, prefix: nat, suffix: nat)
      returns (reused: seq<LineId>, dropped: seq<LineId>, rewritten: seq<string>, added: seq<string>, anchor: Option<LineId>)
      requires prefix + suffix <= |oldIds| && prefix + suffix <= |newLines|
      ensures var w := WindowOf(oldIds, Kept(prefix, suffix), newLines);
              && reused == w.reused && dropped == w.dropped && rewritten == w.rewritten && added == w.added
              && anchor == Last(w.front + w.reused)
    {
      var oldMid := oldIds[prefix..|oldIds| - suffix];
      var newMid := newLines[prefix..|newLines| - suffix];
      var paired := if |oldMid| < |newMid| then |oldMid| else |newMid|;
      reused, dropped, rewritten, added := oldMid[..paired], oldMid[paired..], newMid[..paired], newMid[paired..];
      anchor := if paired > 0 then Some(oldMid[paired - 1])
                else if prefix > 0 then Some(oldIds[prefix - 1])
                else None;
      WindowSlices(oldIds, Kept(prefix, suffix), newLines);
      WindowAnchor(oldIds, Kept(prefix, suffix), newLines);
      LastOfFront(oldMid, paired);
    }

    method Script(newLines: seq<string>, stamp: Stamp, supply: seq<LineId>) returns (ops: seq<LineOp>)
      requires |supply| >= |newLines|
      ensures ops == DiffOps(Value(), newLines, stamp, supply)
    {
      var oldIds, oldContents := Live(Mirror(order, lines, vv)), View(Mirror(order, lines, vv));
      var prefix, suffix := KeptEnds(oldContents, newLines);
      WindowIds(Value(), DiffWindow(Value(), newLines));
      var reused, dropped, rewritten, added, anchor := Middle(oldIds, newLines, prefix, suffix);
      var updates := Updates(reused, rewritten, stamp);
      var deletes := Deletes(dropped, stamp);
      var inserts := Inserts(anchor, added, supply, stamp);
      ops := updates + deletes + inserts;
    }
  }
}
