/**
 The mirror of a note as a list of lines with tombstones, what an operation does to it and what is
 read from it. Strings are UTF-8 octet strings, one character per octet.
 */
module LineMirror {
  import opened Wrappers
  import opened VersionVectors
  import opened TextLines

  type LineId = nat
  type Time = int

  datatype Line = Line(content: string, createdAt: Time, updatedAt: Time, deletedAt: Option<Time>, vv: Vector, lastWriter: Device)

  datatype LineOp =
    | Insert(after: Option<LineId>, id: LineId, content: string, vv: Vector, lastWriter: Device, at: Time)
    | Update(id: LineId, content: string, vv: Vector, lastWriter: Device, at: Time)
    | Delete(id: LineId, deletedAt: Time, vv: Vector, lastWriter: Device, at: Time)
    | Move(ids: seq<LineId>, after: Option<LineId>, vv: Vector, lastWriter: Device, at: Time)

  datatype Mirror = Mirror(order: seq<LineId>, lines: map<LineId, Line>, vv: Vector)

  // ---- Lists of ids ----

  predicate Distinct(s: seq<LineId>) {
    forall i, j :: 0 <= i < j < |s| ==> s[i] != s[j]
  }

  // The first index of x at or after k, or |s|.
  function IndexOf(s: seq<LineId>, x: LineId, k: nat := 0): (i: nat)
    requires k <= |s|
    ensures k <= i <= |s| && (i < |s| ==> s[i] == x)
    ensures forall j :: k <= j < i ==> s[j] != x
    decreases |s| - k
  {
    if k == |s| || s[k] == x then k else IndexOf(s, x, k + 1)
  }

  function PlaceAfter(order: seq<LineId>, after: Option<LineId>): (pos: nat)
    ensures pos <= |order|
  {
    match after
    case None => 0
    case Some(x) => var i := IndexOf(order, x); if i < |order| then i + 1 else |order|
  }

  function InsertAt(s: seq<LineId>, pos: nat, xs: seq<LineId>): seq<LineId>
    requires pos <= |s|
  {
    s[..pos] + xs + s[pos..]
  }

  function Without(s: seq<LineId>, gone: seq<LineId>): seq<LineId> {
    if s == [] then []
    else Without(s[..|s| - 1], gone) + (if s[|s| - 1] in gone then [] else [s[|s| - 1]])
  }

  // ---- Operations ----

  function Applied(m: Mirror, op: LineOp): Mirror {
    match op
    case Insert(after, id, content, vv, writer, at) =>
      Mirror(InsertAt(m.order, PlaceAfter(m.order, after), [id]),
             m.lines[id := Line(content, at, at, None, vv, writer)],
             Join(m.vv, vv))
    case Update(id, content, vv, writer, at) =>
      if id !in m.lines then m else
        var line := m.lines[id];
        m.(lines := m.lines[id := Line(content, line.createdAt, at, None, Join(line.vv, vv), writer)])
    case Delete(id, deletedAt, vv, writer, at) =>
      if id !in m.lines then m else
        var line := m.lines[id];
        m.(lines := m.lines[id := Line(line.content, line.createdAt, at, Some(deletedAt), Join(line.vv, vv), writer)])
    case Move(ids, after, vv, _, _) =>
      var rest := Without(m.order, ids);
      Mirror(InsertAt(rest, PlaceAfter(rest, after), ids), m.lines, Join(m.vv, vv))
  }

  function AppliedAll(m: Mirror, ops: seq<LineOp>): Mirror {
    if ops == [] then m else Applied(AppliedAll(m, ops[..|ops| - 1]), ops[|ops| - 1])
  }

  // ---- What is read ----

  // The lines that are not deleted, with their text.
  function Text(m: Mirror): map<LineId, string> {
    map id | id in m.lines && m.lines[id].deletedAt.None? :: m.lines[id].content
  }

  function LiveIds(order: seq<LineId>, text: map<LineId, string>): seq<LineId> {
    if order == [] then []
    else LiveIds(order[..|order| - 1], text) + (if order[|order| - 1] in text then [order[|order| - 1]] else [])
  }

  function Live(m: Mirror): seq<LineId> {
    LiveIds(m.order, Text(m))
  }

  function Contents(ids: seq<LineId>, text: map<LineId, string>): seq<string>
    requires forall id <- ids :: id in text
  {
    seq(|ids|, i requires 0 <= i < |ids| => text[ids[i]])
  }

  lemma LiveIdsInText(order: seq<LineId>, text: map<LineId, string>)
    ensures forall id :: id in LiveIds(order, text) <==> id in order && id in text
  {
  }

  function View(m: Mirror): seq<string> {
    LiveIdsInText(m.order, Text(m));
    Contents(Live(m), Text(m))
  }

  function Materialize(m: Mirror): string {
    JoinLines(View(m))
  }

  function LinesOf(body: string): seq<string> {
    if body == "" then [] else SplitLines(body)
  }

  // ---- What a mirror shows, and what operations do to it ----

  // The order, the ids that name a line, and the live lines' text: a mirror without vectors, stamps and buried text.
  datatype Shape = Shape(order: seq<LineId>, known: set<LineId>, text: map<LineId, string>)

  function ShapeOf(m: Mirror): Shape {
    Shape(m.order, m.lines.Keys, Text(m))
  }

  function Effect(s: Shape, op: LineOp): Shape {
    match op
    case Insert(after, id, content, _, _, _) =>
      Shape(InsertAt(s.order, PlaceAfter(s.order, after), [id]), s.known + {id}, s.text[id := content])
    case Update(id, content, _, _, _) =>
      if id in s.known then s.(text := s.text[id := content]) else s
    case Delete(id, _, _, _, _) =>
      if id in s.known then s.(text := s.text - {id}) else s
    case Move(ids, after, _, _, _) =>
      var rest := Without(s.order, ids);
      s.(order := InsertAt(rest, PlaceAfter(rest, after), ids))
  }

  function EffectAll(s: Shape, ops: seq<LineOp>): Shape {
    if ops == [] then s else Effect(EffectAll(s, ops[..|ops| - 1]), ops[|ops| - 1])
  }

  lemma OneEffect(m: Mirror, op: LineOp)
    ensures ShapeOf(Applied(m, op)) == Effect(ShapeOf(m), op)
  {
    assert Text(Applied(m, op)) == Effect(ShapeOf(m), op).text;
  }

  // What operations do to a mirror depends only on its shape.
  lemma {:induction false} AllEffects(m: Mirror, ops: seq<LineOp>)
    ensures ShapeOf(AppliedAll(m, ops)) == EffectAll(ShapeOf(m), ops)
  {
    if ops != [] {
      AllEffects(m, ops[..|ops| - 1]);
      OneEffect(AppliedAll(m, ops[..|ops| - 1]), ops[|ops| - 1]);
    }
  }

  // ---- What an operation does to the lines it names, and to no other ----

  ghost predicate IsLub(u: Vector, a: Vector, b: Vector) {
    Dominates(u, a) && Dominates(u, b) && forall v: Vector :: Dominates(v, a) && Dominates(v, b) ==> Dominates(v, u)
  }

  lemma JoinIsLub(a: Vector, b: Vector)
    ensures IsLub(Join(a, b), a, b)
  {
    forall v: Vector ensures Dominates(v, Join(a, b)) <==> Dominates(v, a) && Dominates(v, b) {
      JoinIsLeastUpperBound(a, b, v);
    }
    JoinIsLeastUpperBound(a, b, a);
  }

  // The line carries the operation's writer and time, and its vector has taken in the operation's; its creation stays.
  ghost predicate Restamped(before: Line, line: Line, vv: Vector, writer: Device, at: Time) {
    line.createdAt == before.createdAt && line.updatedAt == at && line.lastWriter == writer && IsLub(line.vv, before.vv, vv)
  }

  predicate OthersStay(m: Mirror, r: Mirror, id: LineId) {
    r.lines.Keys == m.lines.Keys + {id} && forall x <- m.lines :: x != id ==> r.lines[x] == m.lines[x]
  }

  /** What operations change that the text does not show. */
  lemma AppliedMeaning(m: Mirror, op: LineOp)
    ensures var r := Applied(m, op);
            match op
            case Insert(_, id, content, vv, writer, at) =>
              && OthersStay(m, r, id) && r.lines[id] == Line(content, at, at, None, vv, writer) && IsLub(r.vv, m.vv, vv)
            case Update(id, content, vv, writer, at) =>
              if id !in m.lines then r == m
              else
                && OthersStay(m, r, id) && r.vv == m.vv && r.order == m.order
                && Restamped(m.lines[id], r.lines[id], vv, writer, at)
                && r.lines[id].content == content && r.lines[id].deletedAt.None?
            case Delete(id, deletedAt, vv, writer, at) =>
              if id !in m.lines then r == m
              else
                && OthersStay(m, r, id) && r.vv == m.vv && r.order == m.order
                && Restamped(m.lines[id], r.lines[id], vv, writer, at)
                && r.lines[id].content == m.lines[id].content && r.lines[id].deletedAt == Some(deletedAt)
            case Move(_, _, vv, _, _) => r.lines == m.lines && IsLub(r.vv, m.vv, vv)
  {
    JoinIsLub(m.vv, op.vv);
    if (op.Update? || op.Delete?) && op.id in m.lines {
      JoinIsLub(m.lines[op.id].vv, op.vv);
    }
  }

  // ---- Replay ----

  // Same order, same ids, same liveness and live contents; vectors, stamps and writers may differ.
  predicate SameShape(m: Mirror, other: Mirror) {
    ShapeOf(m) == ShapeOf(other)
  }

  /** Any operations have the same visible effect on two mirrors of the same shape. */
  lemma ReplayAgrees(m: Mirror, other: Mirror, ops: seq<LineOp>)
    requires SameShape(m, other)
    ensures SameShape(AppliedAll(m, ops), AppliedAll(other, ops))
    ensures Materialize(AppliedAll(m, ops)) == Materialize(AppliedAll(other, ops))
  {
    AllEffects(m, ops);
    AllEffects(other, ops);
  }
}
