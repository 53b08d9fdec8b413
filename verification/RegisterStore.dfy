/**
 The table of registers behind `apply_change`: rows of five kinds, changed by versioned edits and
 versioned deletes. Deleting or reviving a note also rewrites the rows of its resources, which is
 where a row can stop being the register of its key. At the end, the note log's merge is seen as one
 more register.
 */
module RegisterStore {
  import opened Wrappers
  import opened VersionVectors
  import opened NoteLog
  import opened Replication
  import opened Convergence
  import opened Registers

  datatype Kind = NoteKind | NotebookKind | TagKind | AssociationKind | ResourceKind

  datatype Key = Key(kind: Kind, id: nat)

  // The note that a resource row belongs to when the resource's deletion arrives first.
  const SYSTEM_NOTE: nat := 1

  // `content` stands for the columns an edit carries and nothing here inspects; `owner` is the note of a resource, and None for the other kinds.
  datatype Row = Row(
    content: string,
    owner: Option<nat>,
    createdAt: Time,
    updatedAt: Time,
    deletedAt: Option<Time>,
    vv: Vector,
    lastWriter: Device)

  // Create and update changes carry the whole row; attaching a tag is an edit, detaching a delete.
  datatype Change =
    | Edit(key: Key, row: Row)
    | Delete(key: Key, deletedAt: Time, vv: Vector, lastWriter: Device)

  // A resource has no update stamp: its time is its deletion, or else its creation.
  function RowTime(kind: Kind, row: Row): Time {
    if kind.ResourceKind? then (if row.deletedAt.Some? then row.deletedAt.value else row.createdAt)
    else row.updatedAt
  }

  function RowStamp(kind: Kind, row: Row): Version<()> {
    Version(row.vv, RowTime(kind, row), row.lastWriter, ())
  }

  function ChangeStamp(c: Change): Version<()> {
    match c
    case Edit(key, row) => RowStamp(key.kind, row)
    case Delete(_, at, vv, writer) => Version(vv, at, writer, ())
  }

  // The change as a version: its stamp, carrying the change itself.
  function VersionOf(c: Change): Version<Change> {
    var s := ChangeStamp(c);
    Version(s.vv, s.time, s.writer, c)
  }

  // An edit replaces every column. A delete keeps those it does not name, but for an association, which is replaced whole.
  function NewRow(previous: Option<Row>, c: Change): Row {
    match c
    case Edit(_, row) => row
    case Delete(key, at, vv, writer) =>
      match if key.kind.AssociationKind? then None else previous
      case Some(row) =>
        row.(deletedAt := Some(at), updatedAt := if key.kind.ResourceKind? then row.updatedAt else at,
             vv := vv, lastWriter := writer)
      case None =>
        Row("", if key.kind.ResourceKind? then Some(SYSTEM_NOTE) else None, at, at, Some(at), vv, writer)
  }

  // The columns a kind does not have: only a resource has an owner, a resource has no update stamp, and an association neither content nor creation.
  predicate Proper(kind: Kind, row: Row) {
    && (row.owner.Some? <==> kind.ResourceKind?)
    && (kind.ResourceKind? ==> row.updatedAt == row.createdAt)
    && (kind.AssociationKind? ==> row.content == "" && row.createdAt == row.updatedAt)
  }

  type Table = map<Key, Row>

  function Lookup(rows: Table, key: Key): Option<Row> {
    if key in rows then Some(rows[key]) else None
  }

  predicate IncomingWins(rows: Table, c: Change) {
    c.key !in rows || Beats(ChangeStamp(c), RowStamp(c.key.kind, rows[c.key]))
  }

  predicate OwnedBy(key: Key, row: Row, note: nat) {
    key.kind.ResourceKind? && row.owner == Some(note)
  }

  // The deletion of a note marks its live resources deleted.
  function StampOwned(rows: Table, note: nat, at: Time): Table {
    map k | k in rows :: if OwnedBy(k, rows[k], note) && rows[k].deletedAt.None? then rows[k].(deletedAt := Some(at)) else rows[k]
  }

  // The revival of a note revives the resources that were deleted at the instant the note was.
  function UnstampOwned(rows: Table, note: nat, was: Time): Table {
    map k | k in rows :: if OwnedBy(k, rows[k], note) && rows[k].deletedAt == Some(was) then rows[k].(deletedAt := None) else rows[k]
  }

  // What a note's change does to the resources; `previous` is the note's row before it.
  function Cascade(rows: Table, previous: Option<Row>, c: Change): Table {
    if !c.key.kind.NoteKind? then rows
    else
      match c
      case Delete(key, at, _, _) => StampOwned(rows, key.id, at)
      case Edit(key, row) =>
        if row.deletedAt.None? && previous.Some? && previous.value.deletedAt.Some?
        then UnstampOwned(rows, key.id, previous.value.deletedAt.value)
        else rows
  }

  function Apply(rows: Table, c: Change): Table {
    if IncomingWins(rows, c) then Cascade(rows[c.key := NewRow(Lookup(rows, c.key), c)], Lookup(rows, c.key), c) else rows
  }

  function ApplyAll(rows: Table, changes: seq<Change>): Table {
    if changes == [] then rows
    else Apply(ApplyAll(rows, changes[..|changes| - 1]), changes[|changes| - 1])
  }

  // How many changes a loop gets through that stops at the first one whose apply fails.
  function AppliedBeforeFailure(succeeds: seq<bool>): (n: nat)
    ensures n <= |succeeds| && (forall i :: 0 <= i < n ==> succeeds[i]) && (n < |succeeds| ==> !succeeds[n])
  {
    if succeeds == [] || !succeeds[0] then 0 else 1 + AppliedBeforeFailure(succeeds[1..])
  }

  class Store {
    var rows: Table

    constructor ()
      ensures rows == map[]
    {
      rows := map[];
    }

    method ApplyChange(c: Change)
      modifies this
      ensures rows == Apply(old(rows), c)
    {
      var previous := Lookup(rows, c.key);
      if previous.Some? && !Beats(ChangeStamp(c), RowStamp(c.key.kind, previous.value)) {
        return;
      }
      rows := rows[c.key := NewRow(previous, c)];
      if c.key.kind.NoteKind? {
        match c
        case Delete(key, at, _, _) =>
          rows := map k | k in rows ::
            if OwnedBy(k, rows[k], key.id) && rows[k].deletedAt.None? then rows[k].(deletedAt := Some(at)) else rows[k];
        case Edit(key, row) =>
          if row.deletedAt.None? && previous.Some? && previous.value.deletedAt.Some? {
            var was := previous.value.deletedAt.value;
            rows := map k | k in rows ::
              if OwnedBy(k, rows[k], key.id) && rows[k].deletedAt == Some(was) then rows[k].(deletedAt := None) else rows[k];
          }
      }
    }

    // One sync cycle's loop over what it received: it stops at the first change whose apply fails, which leaves the table alone.
    method ApplyReceived(changes: seq<Change>, succeeds: seq<bool>) returns (done: bool)
      requires |succeeds| == |changes|
      modifies this
      ensures rows == ApplyAll(old(rows), changes[..AppliedBeforeFailure(succeeds)])
      ensures done <==> AppliedBeforeFailure(succeeds) == |changes|
    {
      for i := 0 to |changes|
        invariant rows == ApplyAll(old(rows), changes[..i])
        invariant i <= AppliedBeforeFailure(succeeds)
      {
        if !succeeds[i] {
          return false;
        }
        assert changes[..i + 1][..i] == changes[..i];
        ApplyChange(changes[i]);
      }
      done := true;
    }
  }

  // ---- The table is one register per key, unless a note's deletion or revival reaches into it ----

  function ForKey(changes: seq<Change>, key: Key): seq<Version<Change>> {
    if changes == [] then []
    else
      var c := changes[|changes| - 1];
      ForKey(changes[..|changes| - 1], key) + (if c.key == key then [VersionOf(c)] else [])
  }

  // The row is what the change left: its stamp and liveness, and all of an edit's columns.
  predicate Holds(row: Row, c: Change) {
    && RowStamp(c.key.kind, row) == ChangeStamp(c)
    && match c
       case Edit(_, r) => row == r
       case Delete(_, at, _, _) => row.deletedAt == Some(at)
  }

  lemma ForKeyMembers(changes: seq<Change>, key: Key, v: Version<Change>)
    ensures v in ForKey(changes, key) <==> exists c <- changes :: c.key == key && VersionOf(c) == v
  {
    if changes != [] {
      var n := |changes| - 1;
      ForKeyMembers(changes[..n], key, v);
      assert changes == changes[..n] + [changes[n]];
    }
  }

  // The row at the key, if any, is what the register's change left.
  predicate IsRegister(rows: Table, key: Key, register: Option<Version<Change>>) {
    && (key in rows <==> register.Some?)
    && (key in rows ==>
          var c := register.value.payload;
          c.key == key && register.value == VersionOf(c) && Holds(rows[key], c))
  }

  // After these changes the row is the fold of its key's changes in arrival order.
  predicate RegisterAfter(changes: seq<Change>, key: Key) {
    IsRegister(ApplyAll(map[], changes), key, Fold(ForKey(changes, key)))
  }

  // The change deletes or revives a note, and with it the row at the key.
  predicate Touches(rows: Table, c: Change, key: Key) {
    && c.key.kind.NoteKind? && IncomingWins(rows, c)
    && key in rows && OwnedBy(key, rows[key], c.key.id)
    && match c
       case Delete(_, _, _, _) => rows[key].deletedAt.None?
       case Edit(_, row) =>
         && row.deletedAt.None? && c.key in rows && rows[c.key].deletedAt.Some?
         && rows[key].deletedAt == rows[c.key].deletedAt
  }

  // A change of another key leaves a row as it is, or changes nothing but whether it is deleted.
  lemma ApplyElsewhere(rows: Table, c: Change, key: Key)
    requires c.key != key
    ensures key in Apply(rows, c) <==> key in rows
    ensures key in rows && !Touches(rows, c, key) ==> Apply(rows, c)[key] == rows[key]
    ensures Touches(rows, c, key) ==>
              Apply(rows, c)[key] == rows[key].(deletedAt := if c.Delete? then Some(c.deletedAt) else None)
  {
  }

  lemma ApplyOwn(rows: Table, c: Change)
    requires IncomingWins(rows, c)
    ensures c.key in Apply(rows, c) && Apply(rows, c)[c.key] == NewRow(Lookup(rows, c.key), c)
  {
  }

  /** A winning edit is the row. A winning deletion marks the row there is and leaves its other columns, but for an association's; of nothing it makes a row that holds nothing else. */
  lemma WinnerWrites(rows: Table, c: Change)
    requires IncomingWins(rows, c)
    ensures c.key in Apply(rows, c)
    ensures var row := Apply(rows, c)[c.key];
            match c
            case Edit(_, r) => row == r
            case Delete(key, at, vv, writer) =>
              && row.deletedAt == Some(at) && row.vv == vv && row.lastWriter == writer
              && if key in rows && !key.kind.AssociationKind? then
                   && row.content == rows[key].content && row.owner == rows[key].owner && row.createdAt == rows[key].createdAt
                   && row.updatedAt == if key.kind.ResourceKind? then rows[key].updatedAt else at
                 else
                   && row.content == "" && row.owner == (if key.kind.ResourceKind? then Some(1) else None)
                   && row.createdAt == at && row.updatedAt == at
  {
    ApplyOwn(rows, c);
  }

  // The row of the last edit of the key that won when it arrived.
  function LastWinningEdit(changes: seq<Change>, key: Key): Option<Row> {
    if changes == [] then None
    else
      var front, c := changes[..|changes| - 1], changes[|changes| - 1];
      if c.Edit? && c.key == key && IncomingWins(ApplyAll(map[], front), c) then Some(c.row) else LastWinningEdit(front, key)
  }

  predicate KeepsColumnsOf(row: Row, r: Row) {
    row.content == r.content && row.owner == r.owner && row.createdAt == r.createdAt
  }

  /** In every run a row, deleted or not, holds the columns of the last edit that won; a row that no edit ever won holds nothing. */
  lemma {:induction false} ColumnsOfLastEdit(changes: seq<Change>, key: Key)
    requires !key.kind.AssociationKind?
    ensures var rows, last := ApplyAll(map[], changes), LastWinningEdit(changes, key);
            if key in rows then (if last.Some? then KeepsColumnsOf(rows[key], last.value) else rows[key].content == "")
            else last.None?
  {
    if changes != [] {
      var front, c := changes[..|changes| - 1], changes[|changes| - 1];
      ColumnsOfLastEdit(front, key);
      var rows := ApplyAll(map[], front);
      assert ApplyAll(map[], changes) == Apply(rows, c);
      if c.key != key {
        ApplyElsewhere(rows, c, key);
      } else if IncomingWins(rows, c) {
        WinnerWrites(rows, c);
      }
    }
  }

  /** A winning deletion of a note marks its live resources deleted with it, and changes no other row but its own. */
  lemma NoteDeletionMarks(rows: Table, c: Change)
    requires c.Delete? && c.key.kind.NoteKind? && IncomingWins(rows, c)
    ensures Apply(rows, c).Keys == rows.Keys + {c.key}
    ensures forall key <- rows :: key != c.key ==>
              Apply(rows, c)[key] == if key.kind.ResourceKind? && rows[key].owner == Some(c.key.id) && rows[key].deletedAt.None?
                                     then rows[key].(deletedAt := Some(c.deletedAt)) else rows[key]
  {
  }

  /** Deleting a note and reviving it brings back just the resources that went with it, as they were, and any that was deleted at that very instant. */
  lemma RevivalUndoesDeletion(rows: Table, gone: Change, back: Change)
    requires gone.Delete? && back.Edit? && gone.key == back.key && gone.key.kind.NoteKind? && back.row.deletedAt.None?
    requires IncomingWins(rows, gone) && IncomingWins(Apply(rows, gone), back)
    ensures var after := Apply(Apply(rows, gone), back);
            && after.Keys == rows.Keys + {gone.key}
            && forall key <- rows :: key != gone.key ==>
                 after[key] == if key.kind.ResourceKind? && rows[key].owner == Some(gone.key.id) && rows[key].deletedAt == Some(gone.deletedAt)
                               then rows[key].(deletedAt := None) else rows[key]
  {
    NoteDeletionMarks(rows, gone);
    ApplyOwn(rows, gone);
  }

  /** Columns that a kind does not have never tell two rows apart: if no edit fills them, no row does. */
  lemma {:induction false} RowsAreProper(changes: seq<Change>)
    requires forall c <- changes :: c.Edit? ==> Proper(c.key.kind, c.row)
    ensures forall key <- ApplyAll(map[], changes) :: Proper(key.kind, ApplyAll(map[], changes)[key])
  {
    if changes != [] {
      var n := |changes| - 1;
      RowsAreProper(changes[..n]);
      var rows, c := ApplyAll(map[], changes[..n]), changes[n];
      forall key <- Apply(rows, c) ensures Proper(key.kind, Apply(rows, c)[key]) {
        if key != c.key {
          ApplyElsewhere(rows, c, key);
        } else if IncomingWins(rows, c) {
          ApplyOwn(rows, c);
        }
      }
    }
  }

  lemma ApplyIsDeliver(rows: Table, key: Key, register: Option<Version<Change>>, c: Change)
    requires IsRegister(rows, key, register) && c.key == key
    ensures IsRegister(Apply(rows, c), key, Deliver(register, VersionOf(c)))
  {
    var row := NewRow(Lookup(rows, key), c);
    assert Holds(row, c);
    if register.Some? {
      assert Beats(ChangeStamp(c), RowStamp(key.kind, rows[key])) <==> Beats(VersionOf(c), register.value);
    }
    if IncomingWins(rows, c) {
      ApplyOwn(rows, c);
    }
  }

  lemma OneMore(changes: seq<Change>, c: Change, key: Key)
    ensures ApplyAll(map[], changes + [c]) == Apply(ApplyAll(map[], changes), c)
    ensures ForKey(changes + [c], key) == ForKey(changes, key) + if c.key == key then [VersionOf(c)] else []
    ensures c.key == key ==> Fold(ForKey(changes + [c], key)) == Deliver(Fold(ForKey(changes, key)), VersionOf(c))
  {
    var more := changes + [c];
    assert more[..|more| - 1] == changes;
    var before := ForKey(changes, key);
    assert (before + [VersionOf(c)])[..|before|] == before;
  }

  // One change keeps the row the register of its key exactly if it does not reach into it.
  lemma StepStaysRegisterIff(changes: seq<Change>, c: Change, key: Key)
    requires RegisterAfter(changes, key)
    ensures RegisterAfter(changes + [c], key) <==> !Touches(ApplyAll(map[], changes), c, key)
  {
    var rows := ApplyAll(map[], changes);
    OneMore(changes, c, key);
    if c.key == key {
      ApplyIsDeliver(rows, key, Fold(ForKey(changes, key)), c);
    } else {
      assert ForKey(changes + [c], key) == ForKey(changes, key);
      ApplyElsewhere(rows, c, key);
    }
  }

  predicate RegisterThroughout(changes: seq<Change>, key: Key) {
    forall k :: 0 <= k <= |changes| ==> RegisterAfter(changes[..k], key)
  }

  predicate NeverTouched(changes: seq<Change>, key: Key) {
    forall k :: 0 <= k < |changes| ==> !Touches(ApplyAll(map[], changes[..k]), changes[k], key)
  }

  lemma ThroughoutOneMore(front: seq<Change>, c: Change, key: Key)
    ensures RegisterThroughout(front + [c], key) <==> RegisterThroughout(front, key) && RegisterAfter(front + [c], key)
    ensures RegisterThroughout(front, key) ==> RegisterAfter(front, key)
  {
    var n, changes := |front|, front + [c];
    forall k | 0 <= k <= n ensures RegisterAfter(changes[..k], key) <==> RegisterAfter(front[..k], key) {
      assert front[..k] == changes[..k];
    }
    assert front[..n] == front && changes[..n + 1] == changes;
  }

  lemma NeverTouchedOneMore(front: seq<Change>, c: Change, key: Key)
    ensures NeverTouched(front + [c], key) <==> NeverTouched(front, key) && !Touches(ApplyAll(map[], front), c, key)
  {
    var n, changes := |front|, front + [c];
    assert forall k :: 0 <= k < n ==> front[..k] == changes[..k] && front[k] == changes[k];
    assert changes[..n] == front && changes[n] == c;
  }

  /**
   In every run a row is the register of its key throughout, the fold of that key's changes in arrival
   order, exactly if no winning deletion or revival of a note reaches into it between them.
   */
  lemma {:induction false} RowsAreRegistersIff(changes: seq<Change>, key: Key)
    ensures RegisterThroughout(changes, key) <==> NeverTouched(changes, key)
  {
    if changes == [] {
      assert changes[..0] == [];
    } else {
      var front, c := changes[..|changes| - 1], changes[|changes| - 1];
      assert changes == front + [c];
      RowsAreRegistersIff(front, key);
      ThroughoutOneMore(front, c, key);
      NeverTouchedOneMore(front, c, key);
      if RegisterThroughout(front, key) {
        StepStaysRegisterIff(front, c, key);
      }
    }
  }

  /** Rows of notes, notebooks, tags and associations are registers in every run. */
  lemma RowsAreRegisters(changes: seq<Change>, key: Key)
    requires !key.kind.ResourceKind?
    ensures RegisterAfter(changes, key)
  {
    RowsAreRegistersIff(changes, key);
    assert changes[..|changes|] == changes;
  }

  // ---- Which changes leave a resource alone, whatever the order? ----

  ghost predicate Drawn(a: seq<Change>, changes: seq<Change>) {
    forall c <- a :: c in changes
  }

  function DeletionTime(c: Change): Option<Time> {
    match c
    case Edit(_, row) => row.deletedAt
    case Delete(_, at, _, _) => Some(at)
  }

  // Its note is deleted, and it has a live version in that note.
  ghost predicate DeletedWithNote(changes: seq<Change>, key: Key) {
    exists e <- changes, x <- changes :: e.Edit? && e.key == key && e.row.deletedAt.None? && x.Delete? && x.key.kind.NoteKind? && e.row.owner == Some(x.key.id)
  }

  // A version that leaves the row deleted can leave it in this note: a delete keeps the note of the edit it beats.
  ghost predicate LeavesIn(changes: seq<Change>, d: Change, note: nat) {
    match d
    case Edit(_, row) => row.owner == Some(note)
    case Delete(_, _, _, _) =>
      note == SYSTEM_NOTE || exists e <- changes :: e.Edit? && e.key == d.key && e.row.owner == Some(note) && Beats(VersionOf(d), VersionOf(e))
  }

  // y brings the note back that x had deleted, at the very instant at which d deleted the resource.
  ghost predicate Revives(changes: seq<Change>, key: Key, x: Change, y: Change, d: Change) {
    && x.key == y.key && x.key.kind.NoteKind? && d.key == key
    && y.Edit? && y.row.deletedAt.None? && Beats(VersionOf(y), VersionOf(x))
    && DeletionTime(x).Some? && DeletionTime(d) == DeletionTime(x)
    && LeavesIn(changes, d, x.key.id)
  }

  ghost predicate RevivedWithNote(changes: seq<Change>, key: Key) {
    exists x <- changes, y <- changes, d <- changes :: Revives(changes, key, x, y, d)
  }

  // Some order of the changes reaches into the row from its note.
  ghost predicate Disturbed(changes: seq<Change>, key: Key) {
    key.kind.ResourceKind? && (DeletedWithNote(changes, key) || RevivedWithNote(changes, key))
  }

  // Where the row's note comes from while a deletion is its register.
  ghost predicate OwnerKnown(changes: seq<Change>, rows: Table, key: Key, top: Change)
    requires key in rows
  {
    rows[key].owner.Some? ==> LeavesIn(changes, top, rows[key].owner.value)
  }

  lemma BeatsThrough(vs: set<Version<Change>>, a: Version<Change>, b: Version<Change>, c: Version<Change>)
    requires Decisive(vs) && NoCycle(vs) && a in vs && b in vs && c in vs && a != c
    requires Beats(a, b) && Beats(b, c)
    ensures Beats(a, c)
  {
    assert !(Beats(a, b) && Beats(b, c) && Beats(c, a));
  }

  lemma VersionIsListed(changes: seq<Change>, c: Change)
    requires c in changes
    ensures VersionOf(c) in VersionsFor(changes, c.key)
  {
    ForKeyMembers(changes, c.key, VersionOf(c));
  }

  lemma TopIsDrawn(a: seq<Change>, changes: seq<Change>, key: Key)
    requires Drawn(a, changes) && RegisterAfter(a, key) && key in ApplyAll(map[], a)
    ensures Fold(ForKey(a, key)).value.payload in changes
  {
    FoldIsDelivered(ForKey(a, key));
    ForKeyMembers(a, key, Fold(ForKey(a, key)).value);
  }

  lemma {:induction false} FoldIsDelivered<P>(deliveries: seq<Version<P>>)
    ensures Fold(deliveries).Some? ==> Fold(deliveries).value in deliveries
  {
    if deliveries != [] {
      FoldIsDelivered(deliveries[..|deliveries| - 1]);
    }
  }

  lemma OwnerStaysKnown(changes: seq<Change>, a: seq<Change>, c: Change, key: Key)
    requires OrderFree(VersionsFor(changes, key)) && Drawn(a, changes) && c in changes && c.key == key && key.kind.ResourceKind?
    requires RegisterAfter(a, key) && IncomingWins(ApplyAll(map[], a), c)
    requires key in ApplyAll(map[], a) ==> OwnerKnown(changes, ApplyAll(map[], a), key, Fold(ForKey(a, key)).value.payload)
    ensures OwnerKnown(changes, Apply(ApplyAll(map[], a), c), key, c)
  {
    var rows := ApplyAll(map[], a);
    ApplyOwn(rows, c);
    if c.Delete? && key in rows && rows[key].owner.Some? {
      var top, note := Fold(ForKey(a, key)).value.payload, rows[key].owner.value;
      TopIsDrawn(a, changes, key);
      assert Beats(VersionOf(c), VersionOf(top));
      if top.Delete? && note != SYSTEM_NOTE {
        var e :| e in changes && e.Edit? && e.key == key && e.row.owner == Some(note) && Beats(VersionOf(top), VersionOf(e));
        OrderFreeIff(VersionsFor(changes, key));
        VersionIsListed(changes, c);
        VersionIsListed(changes, top);
        VersionIsListed(changes, e);
        BeatsThrough(VersionsFor(changes, key), VersionOf(c), VersionOf(top), VersionOf(e));
      }
    }
  }

  // A change that reaches into the row is one of the two kinds.
  lemma TouchDisturbs(changes: seq<Change>, a: seq<Change>, c: Change, key: Key)
    requires Drawn(a, changes) && c in changes && RegisterAfter(a, key)
    requires Touches(ApplyAll(map[], a), c, key)
    requires OwnerKnown(changes, ApplyAll(map[], a), key, Fold(ForKey(a, key)).value.payload)
    ensures Disturbed(changes, key)
  {
    var rows := ApplyAll(map[], a);
    TopIsDrawn(a, changes, key);
    var d := Fold(ForKey(a, key)).value.payload;
    if c.Edit? {
      RowsAreRegisters(a, c.key);
      TopIsDrawn(a, changes, c.key);
      var x := Fold(ForKey(a, c.key)).value.payload;
      assert Beats(VersionOf(c), VersionOf(x));
      assert Revives(changes, key, x, c, d);
    } else {
      assert d.Edit? && d.row == rows[key];
    }
  }

  lemma {:induction false} UndisturbedIsRegister(changes: seq<Change>, a: seq<Change>, key: Key)
    requires key.kind.ResourceKind? && OrderFree(VersionsFor(changes, key)) && Drawn(a, changes) && !Disturbed(changes, key)
    ensures RegisterAfter(a, key)
    ensures key in ApplyAll(map[], a) ==> OwnerKnown(changes, ApplyAll(map[], a), key, Fold(ForKey(a, key)).value.payload)
  {
    if a != [] {
      var n := |a| - 1;
      var front, c := a[..n], a[n];
      assert a == front + [c];
      UndisturbedIsRegister(changes, front, key);
      StepStaysRegisterIff(front, c, key);
      OneMore(front, c, key);
      var rows := ApplyAll(map[], front);
      if Touches(rows, c, key) {
        TouchDisturbs(changes, front, c, key);
      } else if c.key != key {
        assert ForKey(a, key) == ForKey(front, key);
        ApplyElsewhere(rows, c, key);
      } else if IncomingWins(rows, c) {
        OwnerStaysKnown(changes, front, c, key);
        assert Fold(ForKey(a, key)) == Some(VersionOf(c));
      } else {
        assert Fold(ForKey(a, key)) == Fold(ForKey(front, key));
      }
    }
  }

  // One change after another, from an empty table.
  lemma Unfolded(a: Change, b: Change, c: Change)
    ensures ApplyAll(map[], [a]) == Apply(map[], a)
    ensures ApplyAll(map[], [a, b]) == Apply(Apply(map[], a), b)
    ensures ApplyAll(map[], [a, b, c]) == Apply(Apply(Apply(map[], a), b), c)
  {
    OneMore([], a, a.key);
    OneMore([a], b, b.key);
    OneMore([a, b], c, c.key);
    assert [] + [a] == [a] && [a] + [b] == [a, b] && [a, b] + [c] == [a, b, c];
  }

  lemma DeletionReaches(changes: seq<Change>, key: Key) returns (a: seq<Change>)
    requires key.kind.ResourceKind? && DeletedWithNote(changes, key)
    ensures Drawn(a, changes) && !RegisterAfter(a, key)
  {
    var e, x :| e in changes && x in changes && e.Edit? && e.key == key && e.row.deletedAt.None? &&
      x.Delete? && x.key.kind.NoteKind? && e.row.owner == Some(x.key.id);
    Unfolded(e, x, x);
    assert [e] + [x] == [e, x];
    if RegisterAfter([e], key) {
      StepStaysRegisterIff([e], x, key);
      a := [e, x];
    } else {
      a := [e];
    }
  }

  // With the row deleted in its note at that instant, the note's deletion passes it by and its revival reaches it.
  lemma RevivalReaches(before: seq<Change>, key: Key, x: Change, y: Change)
    requires key.kind.ResourceKind? && key in ApplyAll(map[], before) && x.key !in ApplyAll(map[], before)
    requires x.key == y.key && x.key.kind.NoteKind? && y.Edit? && y.row.deletedAt.None? && Beats(VersionOf(y), VersionOf(x))
    requires DeletionTime(x).Some? && ApplyAll(map[], before)[key].deletedAt == DeletionTime(x)
    requires ApplyAll(map[], before)[key].owner == Some(x.key.id)
    ensures !RegisterAfter(before + [x], key) || !RegisterAfter(before + [x] + [y], key)
  {
    var rows := ApplyAll(map[], before);
    OneMore(before, x, key);
    ApplyElsewhere(rows, x, key);
    ApplyOwn(rows, x);
    var later := Apply(rows, x);
    assert RowStamp(x.key.kind, later[x.key]) == ChangeStamp(x);
    assert Touches(later, y, key);
    if RegisterAfter(before + [x], key) {
      StepStaysRegisterIff(before + [x], y, key);
    }
  }

  // The resource alone can come to be deleted in its note at the instant of d.
  lemma DeletedInNote(changes: seq<Change>, d: Change, note: nat) returns (before: seq<Change>)
    requires d in changes && d.key.kind.ResourceKind? && DeletionTime(d).Some? && LeavesIn(changes, d, note)
    ensures Drawn(before, changes) && (forall c <- before :: c.key == d.key) && ApplyAll(map[], before).Keys == {d.key}
    ensures var row := ApplyAll(map[], before)[d.key]; row.deletedAt == DeletionTime(d) && row.owner == Some(note)
  {
    before := [d];
    Unfolded(d, d, d);
    if d.Delete? && note != SYSTEM_NOTE {
      var e :| e in changes && e.Edit? && e.key == d.key && e.row.owner == Some(note) && Beats(VersionOf(d), VersionOf(e));
      Unfolded(e, d, d);
      before := [e, d];
    }
  }

  lemma RevivalDisturbs(changes: seq<Change>, key: Key) returns (a: seq<Change>)
    requires key.kind.ResourceKind? && RevivedWithNote(changes, key)
    ensures Drawn(a, changes) && !RegisterAfter(a, key)
  {
    var x, y, d :| x in changes && y in changes && d in changes && Revives(changes, key, x, y, d);
    var before := DeletedInNote(changes, d, x.key.id);
    RevivalReaches(before, key, x, y);
    a := if RegisterAfter(before + [x], key) then before + [x] + [y] else before + [x];
  }

  /**
   Which changes leave a row the register of its key, whatever subset of them has arrived in whatever
   order and however often: exactly those that hold no deletion of a note in which the resource has a
   live version, and no revival of a note deleted at the instant at which the resource was in it.
   */
  lemma AlwaysRegisterIff(changes: seq<Change>, key: Key)
    requires OrderFree(VersionsFor(changes, key))
    ensures (forall a: seq<Change> :: Drawn(a, changes) ==> RegisterAfter(a, key)) <==> !Disturbed(changes, key)
  {
    if !Disturbed(changes, key) {
      forall a: seq<Change> | Drawn(a, changes) ensures RegisterAfter(a, key) {
        if key.kind.ResourceKind? {
          UndisturbedIsRegister(changes, a, key);
        } else {
          RowsAreRegisters(a, key);
        }
      }
    } else if DeletedWithNote(changes, key) {
      var a := DeletionReaches(changes, key);
    } else {
      var a := RevivalDisturbs(changes, key);
    }
  }

  // ---- What follows for readers ----

  // What a reader sees of a key: its row while it is live.
  function Visible(rows: Table, key: Key): Option<Row> {
    if key in rows && rows[key].deletedAt.None? then Some(rows[key]) else None
  }

  function StampAt(rows: Table, key: Key): Option<Version<()>> {
    if key in rows then Some(RowStamp(key.kind, rows[key])) else None
  }

  ghost predicate SameChanges(a: seq<Change>, b: seq<Change>) {
    (forall c <- a :: c in b) && (forall c <- b :: c in a)
  }

  function VersionsFor(changes: seq<Change>, key: Key): set<Version<Change>> {
    set v <- ForKey(changes, key) :: v
  }

  lemma SameFold(a: seq<Change>, b: seq<Change>, key: Key)
    requires SameChanges(a, b) && OrderFree(VersionsFor(a, key))
    ensures Fold(ForKey(a, key)) == Fold(ForKey(b, key))
  {
    forall v ensures v in ForKey(a, key) <==> v in ForKey(b, key) {
      ForKeyMembers(a, key, v);
      ForKeyMembers(b, key, v);
    }
    assert Within(ForKey(a, key), VersionsFor(a, key));
    assert SameDelivered(ForKey(a, key), ForKey(b, key));
  }

  // The two stores agree on the key's version, on whether it is deleted, and on its row while it is live.
  predicate SameForReaders(a: seq<Change>, b: seq<Change>, key: Key) {
    && StampAt(ApplyAll(map[], a), key) == StampAt(ApplyAll(map[], b), key)
    && Visible(ApplyAll(map[], a), key) == Visible(ApplyAll(map[], b), key)
  }

  lemma StoresConverge(a: seq<Change>, b: seq<Change>, key: Key)
    requires SameChanges(a, b) && OrderFree(VersionsFor(a, key)) && !Disturbed(a, key)
    ensures SameForReaders(a, b, key)
  {
    AlwaysRegisterIff(a, key);
    assert Drawn(a, a) && Drawn(b, a);
    assert RegisterAfter(a, key) && RegisterAfter(b, key);
    SameFold(a, b, key);
  }

  lemma SomeSplit(changes: seq<Change>, key: Key) returns (a: seq<Change>, b: seq<Change>)
    requires Disturbed(changes, key)
    ensures Drawn(a, changes) && SameChanges(a, b) && !SameForReaders(a, b, key)
  {
    if DeletedWithNote(changes, key) {
      a, b := DeletionSplits(changes, key);
    } else {
      a, b := RevivalSplits(changes, key);
    }
  }

  // The resource's edit and its note's deletion, in either order.
  lemma DeletionSplits(changes: seq<Change>, key: Key) returns (a: seq<Change>, b: seq<Change>)
    requires key.kind.ResourceKind? && DeletedWithNote(changes, key)
    ensures Drawn(a, changes) && SameChanges(a, b) && !SameForReaders(a, b, key)
  {
    var e, x :| e in changes && x in changes && e.Edit? && e.key == key && e.row.deletedAt.None? &&
      x.Delete? && x.key.kind.NoteKind? && e.row.owner == Some(x.key.id);
    Unfolded(e, x, x);
    Unfolded(x, e, e);
    a, b := [e, x], [x, e];
    ApplyElsewhere(Apply(map[], e), x, key);
    ApplyOwn(Apply(map[], x), e);
  }

  // What a resource's own changes make of its row depends on nothing but that row.
  lemma OwnRowOnly(rows: Table, others: Table, c: Change)
    requires c.key.kind.ResourceKind? && Lookup(rows, c.key) == Lookup(others, c.key)
    ensures Lookup(Apply(rows, c), c.key) == Lookup(Apply(others, c), c.key)
  {
  }

  lemma {:induction false} BehindOthers(first: seq<Change>, own: seq<Change>, key: Key)
    requires key.kind.ResourceKind? && (forall c <- own :: c.key == key) && key !in ApplyAll(map[], first)
    ensures Lookup(ApplyAll(map[], first + own), key) == Lookup(ApplyAll(map[], own), key)
  {
    if own == [] {
      assert first + own == first;
    } else {
      var front, c := own[..|own| - 1], own[|own| - 1];
      assert own == front + [c] && first + own == (first + front) + [c];
      BehindOthers(first, front, key);
      OneMore(first + front, c, key);
      OneMore(front, c, key);
      OwnRowOnly(ApplyAll(map[], first + front), ApplyAll(map[], front), c);
    }
  }

  lemma NotesAlone(x: Change, y: Change, key: Key)
    requires x.key == y.key && x.key != key
    ensures key !in ApplyAll(map[], [x, y])
  {
    Unfolded(x, y, y);
    ApplyElsewhere(map[], x, key);
    ApplyElsewhere(Apply(map[], x), y, key);
  }

  lemma RevivedBehind(before: seq<Change>, key: Key, x: Change, y: Change)
    requires key.kind.ResourceKind? && key in ApplyAll(map[], before) && x.key !in ApplyAll(map[], before)
    requires x.key == y.key && x.key.kind.NoteKind? && y.Edit? && y.row.deletedAt.None? && Beats(VersionOf(y), VersionOf(x))
    requires DeletionTime(x).Some? && ApplyAll(map[], before)[key].deletedAt == DeletionTime(x)
    requires ApplyAll(map[], before)[key].owner == Some(x.key.id)
    ensures Visible(ApplyAll(map[], before + [x] + [y]), key).Some?
  {
    var rows := ApplyAll(map[], before);
    OneMore(before, x, key);
    ApplyElsewhere(rows, x, key);
    ApplyOwn(rows, x);
    var later := Apply(rows, x);
    assert RowStamp(x.key.kind, later[x.key]) == ChangeStamp(x);
    assert Touches(later, y, key);
    OneMore(before + [x], y, key);
    ApplyElsewhere(later, y, key);
  }

  // The resource's deletion, then its note's and the note's revival; or those two first.
  lemma RevivalSplits(changes: seq<Change>, key: Key) returns (a: seq<Change>, b: seq<Change>)
    requires key.kind.ResourceKind? && RevivedWithNote(changes, key)
    ensures Drawn(a, changes) && SameChanges(a, b) && !SameForReaders(a, b, key)
  {
    var x, y, d :| x in changes && y in changes && d in changes && Revives(changes, key, x, y, d);
    var before := DeletedInNote(changes, d, x.key.id);
    RevivedBehind(before, key, x, y);
    StaysDeleted(before, key, x, y);
    a, b := before + [x] + [y], [x, y] + before;
  }

  lemma StaysDeleted(before: seq<Change>, key: Key, x: Change, y: Change)
    requires key.kind.ResourceKind? && (forall c <- before :: c.key == key)
    requires key in ApplyAll(map[], before) && ApplyAll(map[], before)[key].deletedAt.Some?
    requires x.key == y.key && x.key != key
    ensures Visible(ApplyAll(map[], [x, y] + before), key).None?
  {
    NotesAlone(x, y, key);
    BehindOthers([x, y], before, key);
  }

  /**
   Whichever of the changes two stores received, in whatever order and however often: they agree on the
   key's version, on whether it is deleted and on its live row, exactly if no change of a note can reach
   into it, which for other kinds than resources none can. The versions of the key are order-free.
   */
  lemma StoresConvergeIff(changes: seq<Change>, key: Key)
    requires OrderFree(VersionsFor(changes, key))
    ensures (forall a: seq<Change>, b: seq<Change> :: Drawn(a, changes) && SameChanges(a, b) ==> SameForReaders(a, b, key))
            <==> !Disturbed(changes, key)
  {
    if Disturbed(changes, key) {
      var a, b := SomeSplit(changes, key);
    } else {
      forall a: seq<Change>, b: seq<Change> | Drawn(a, changes) && SameChanges(a, b) ensures SameForReaders(a, b, key) {
        FewerVersions(a, changes, key);
        FewerDisturb(a, changes, key);
        StoresConverge(a, b, key);
      }
    }
  }

  lemma FewerVersions(a: seq<Change>, changes: seq<Change>, key: Key)
    requires Drawn(a, changes) && OrderFree(VersionsFor(changes, key))
    ensures VersionsFor(a, key) <= VersionsFor(changes, key) && OrderFree(VersionsFor(a, key))
  {
    forall v <- VersionsFor(a, key) ensures v in VersionsFor(changes, key) {
      ForKeyMembers(a, key, v);
      ForKeyMembers(changes, key, v);
    }
    OrderFreeIff(VersionsFor(changes, key));
    OrderFreeIff(VersionsFor(a, key));
  }

  lemma FewerDisturb(a: seq<Change>, changes: seq<Change>, key: Key)
    requires Drawn(a, changes) && !Disturbed(changes, key)
    ensures !Disturbed(a, key)
  {
    if key.kind.ResourceKind? && RevivedWithNote(a, key) {
      var x, y, d :| x in a && y in a && d in a && Revives(a, key, x, y, d);
      assert Revives(changes, key, x, y, d);
    }
  }

  // ---- Nothing stale is read ----

  // Of the changes of its key, none beats this one.
  predicate Unbeaten(a: seq<Change>, c: Change) {
    c in a && forall w <- a :: w.key == c.key ==> !Beats(VersionOf(w), VersionOf(c))
  }

  // The row is there as soon as a change of it has come, and is what an unbeaten one of them left.
  ghost predicate ReadsUnbeaten(a: seq<Change>, key: Key) {
    var rows := ApplyAll(map[], a);
    && (key in rows <==> exists c <- a :: c.key == key)
    && (key in rows ==> exists c <- a :: c.key == key && Unbeaten(a, c) && Holds(rows[key], c))
  }

  lemma RegisterReadsUnbeaten(a: seq<Change>, changes: seq<Change>, key: Key)
    requires Drawn(a, changes) && Decisive(VersionsFor(changes, key)) && NoCycle(VersionsFor(changes, key))
    ensures RegisterAfter(a, key) <==> ReadsUnbeaten(a, key)
  {
    var rows, deliveries := ApplyAll(map[], a), ForKey(a, key);
    OrderFreeIff(VersionsFor(changes, key));
    FewerVersions(a, changes, key);
    forall c <- a | c.key == key ensures VersionOf(c) in deliveries {
      ForKeyMembers(a, key, VersionOf(c));
    }
    if deliveries != [] {
      FoldIsTop(deliveries, VersionsFor(changes, key));
      var top := Fold(deliveries).value;
      ForKeyMembers(a, key, top);
      var t :| t in a && t.key == key && VersionOf(t) == top;
      forall w <- a | w.key == key ensures !Beats(VersionOf(w), top) {
        BeatsAsymmetric(VersionOf(w), top);
      }
      assert Unbeaten(a, t) && top.payload == t;
      forall c <- a | c.key == key && Unbeaten(a, c) ensures c == t {
        assert VersionOf(c) == top || Beats(top, VersionOf(c));
      }
    }
  }

  // Of three changes that beat each other in a circle, whichever the row holds is beaten by one that came.
  lemma CircleReadsBeaten(c: Change, d: Change, e: Change)
    requires c.key == d.key == e.key
    requires Beats(VersionOf(c), VersionOf(d)) && Beats(VersionOf(d), VersionOf(e)) && Beats(VersionOf(e), VersionOf(c))
    ensures !ReadsUnbeaten([c, e, d], c.key)
  {
    var a := [c, e, d];
    assert c in a && d in a && e in a;
    forall x <- a ensures !Unbeaten(a, x) {
    }
  }

  lemma CircleOfChanges(changes: seq<Change>, key: Key) returns (a: seq<Change>)
    requires !NoCycle(VersionsFor(changes, key))
    ensures Drawn(a, changes) && !ReadsUnbeaten(a, key)
  {
    var u, v, w :| u in VersionsFor(changes, key) && v in VersionsFor(changes, key) && w in VersionsFor(changes, key) &&
      Beats(u, v) && Beats(v, w) && Beats(w, u);
    var c := ChangeOf(changes, key, u);
    var d := ChangeOf(changes, key, v);
    var e := ChangeOf(changes, key, w);
    CircleReadsBeaten(c, d, e);
    a := [c, e, d];
  }

  lemma ChangeOf(changes: seq<Change>, key: Key, v: Version<Change>) returns (c: Change)
    requires v in VersionsFor(changes, key)
    ensures c in changes && c.key == key && VersionOf(c) == v
  {
    ForKeyMembers(changes, key, v);
    c :| c in changes && c.key == key && VersionOf(c) == v;
  }

  /**
   Whichever of the changes arrived, in whatever order and however often, a row is what a change left that
   no other delivered one beats, so that no stale edit undoes a delete and no stale delete hides an edit:
   exactly if no three versions of the key beat each other in a circle and no change of a note can reach
   into the row.
   */
  lemma ReadsUnbeatenIff(changes: seq<Change>, key: Key)
    requires Decisive(VersionsFor(changes, key))
    ensures (forall a: seq<Change> :: Drawn(a, changes) ==> ReadsUnbeaten(a, key))
            <==> NoCycle(VersionsFor(changes, key)) && !Disturbed(changes, key)
  {
    if !NoCycle(VersionsFor(changes, key)) {
      var a := CircleOfChanges(changes, key);
    } else {
      OrderFreeIff(VersionsFor(changes, key));
      AlwaysRegisterIff(changes, key);
      forall a: seq<Change> | Drawn(a, changes) ensures RegisterAfter(a, key) <==> ReadsUnbeaten(a, key) {
        RegisterReadsUnbeaten(a, changes, key);
      }
    }
  }

  /** Then, once a delete has been applied or found stale, no edit it beats is ever what a reader sees; and an edit that beats a delete is never hidden by it. */
  lemma NoStaleResurrection(changes: seq<Change>, edit: Change, delete: Change)
    requires edit.Edit? && delete.Delete? && edit.key == delete.key
    requires edit in changes && delete in changes
    requires OrderFree(VersionsFor(changes, edit.key)) && !Disturbed(changes, edit.key)
    ensures var rows := ApplyAll(map[], changes);
            && (Beats(VersionOf(delete), VersionOf(edit)) ==> StampAt(rows, edit.key) != Some(ChangeStamp(edit)))
            && (Beats(VersionOf(edit), VersionOf(delete)) ==> StampAt(rows, edit.key) != Some(ChangeStamp(delete)))
  {
    var key := edit.key;
    OrderFreeIff(VersionsFor(changes, key));
    ReadsUnbeatenIff(changes, key);
    assert Drawn(changes, changes);
    assert ReadsUnbeaten(changes, key);
    var c :| c in changes && c.key == key && Unbeaten(changes, c) && Holds(ApplyAll(map[], changes)[key], c);
    VersionIsListed(changes, c);
    VersionIsListed(changes, edit);
    VersionIsListed(changes, delete);
  }

  const PICTURE := Key(ResourceKind, 7)
  const DRAFT := Key(NoteKind, 5)

  /** A note's deletion and the creation of its resource, in either order: the stores disagree for good on whether the resource is deleted. */
  lemma NoteDeleteSplitsStores() returns (create: Change, delete: Change)
    ensures create.key == PICTURE && delete.key == DRAFT && OrderFree(VersionsFor([create, delete], PICTURE))
    ensures Visible(ApplyAll(map[], [create, delete]), PICTURE) != Visible(ApplyAll(map[], [delete, create]), PICTURE)
  {
    create := Edit(PICTURE, Row("picture", Some(5), 1, 1, None, map[1 := 1], 1));
    delete := Delete(DRAFT, 2, map[2 := 1], 2);
    Unfolded(create, delete, delete);
    Unfolded(delete, create, create);
    var a, b := ApplyAll(map[], [create, delete]), ApplyAll(map[], [delete, create]);
    assert a[PICTURE].deletedAt == Some(2);
    assert b[PICTURE].deletedAt == None;
    OneMore([], create, PICTURE);
    OneMore([create], delete, PICTURE);
    assert [] + [create] == [create] && [create] + [delete] == [create, delete];
    assert ForKey([create, delete], PICTURE) == [VersionOf(create)];
    forall v <- VersionsFor([create, delete], PICTURE) ensures v == VersionOf(create) {
    }
    OrderFreeIff(VersionsFor([create, delete], PICTURE));
  }

  /** A note's deletion ages its resource, and a delete that the resource's own edit beats then hides that edit. */
  lemma NoteDeleteHidesNewerEdit() returns (edit: Change, ofNote: Change, delete: Change)
    ensures edit.Edit? && delete.Delete? && edit.key == delete.key == PICTURE && ofNote.key == DRAFT
    ensures Beats(VersionOf(edit), VersionOf(delete)) && OrderFree(VersionsFor([edit, ofNote, delete], PICTURE))
    ensures StampAt(ApplyAll(map[], [edit, ofNote, delete]), PICTURE) == Some(ChangeStamp(delete))
  {
    edit := Edit(PICTURE, Row("picture", Some(5), 3, 3, None, map[1 := 1], 1));
    ofNote := Delete(DRAFT, 1, map[2 := 1], 2);
    delete := Delete(PICTURE, 2, map[2 := 1], 2);
    NotSeen(edit.row.vv, delete.vv, 2);
    NotSeen(delete.vv, edit.row.vv, 1);
    Unfolded(edit, ofNote, delete);
    var rows := ApplyAll(map[], [edit, ofNote]);
    assert rows[PICTURE] == edit.row.(deletedAt := Some(1));
    assert IncomingWins(rows, delete);
    ApplyOwn(rows, delete);
    PairIsOrderFree(VersionOf(delete), VersionOf(edit), VersionsFor([edit, ofNote, delete], PICTURE)) by {
      forall v <- VersionsFor([edit, ofNote, delete], PICTURE) ensures v == VersionOf(edit) || v == VersionOf(delete) {
        ForKeyMembers([edit, ofNote, delete], PICTURE, v);
      }
    }
  }

  lemma PairIsOrderFree(a: Version<Change>, b: Version<Change>, vs: set<Version<Change>>)
    requires Beats(b, a) && forall v <- vs :: v == a || v == b
    ensures OrderFree(vs)
  {
    BeatsAsymmetric(a, b);
    OrderFreeIff(vs);
  }

  // ---- The columns kept under a deletion ----

  // All the columns that the delete v keeps of the row are what it would have written itself.
  predicate Plain(row: Row, v: Change) {
    NewRow(Some(row), v) == NewRow(None, v)
  }

  // So it is with the row that x leaves when it arrives alone.
  predicate KeepsNothingOf(x: Change, v: Change) {
    Plain(NewRow(None, x), v)
  }

  lemma {:induction false} RowsStayPlain(changes: seq<Change>, a: seq<Change>, v: Change)
    requires v.Delete? && Drawn(a, changes) && OrderFree(VersionsFor(changes, v.key)) && !Disturbed(changes, v.key)
    requires forall x <- changes :: x.key == v.key ==> KeepsNothingOf(x, v)
    ensures v.key in ApplyAll(map[], a) ==> Plain(ApplyAll(map[], a)[v.key], v)
  {
    if a != [] {
      var n := |a| - 1;
      var front, c := a[..n], a[n];
      assert a == front + [c];
      RowsStayPlain(changes, front, v);
      AlwaysRegisterIff(changes, v.key);
      assert RegisterAfter(front, v.key) && RegisterAfter(a, v.key);
      StepStaysRegisterIff(front, c, v.key);
      OneMore(front, c, v.key);
      var rows := ApplyAll(map[], front);
      if c.key != v.key {
        ApplyElsewhere(rows, c, v.key);
      } else if IncomingWins(rows, c) {
        ApplyOwn(rows, c);
        assert KeepsNothingOf(c, v);
      }
    }
  }

  ghost predicate Tops(changes: seq<Change>, v: Change) {
    forall x <- changes :: x.key == v.key && x != v ==> Beats(VersionOf(v), VersionOf(x))
  }

  lemma OthersPassBy(changes: seq<Change>, a: seq<Change>, c: Change, v: Change)
    requires OrderFree(VersionsFor(changes, v.key)) && !Disturbed(changes, v.key) && Tops(changes, v)
    requires Drawn(a, changes) && c in changes
    requires v.key in ApplyAll(map[], a) && RowStamp(v.key.kind, ApplyAll(map[], a)[v.key]) == ChangeStamp(v)
    ensures Lookup(ApplyAll(map[], a + [c]), v.key) == Lookup(ApplyAll(map[], a), v.key)
  {
    var rows := ApplyAll(map[], a);
    OneMore(a, c, v.key);
    if c.key == v.key {
      BeatsAsymmetric(VersionOf(v), VersionOf(c));
      assert !IncomingWins(rows, c);
    } else {
      AlwaysRegisterIff(changes, v.key);
      assert Drawn(a + [c], changes);
      assert RegisterAfter(a, v.key) && RegisterAfter(a + [c], v.key);
      StepStaysRegisterIff(a, c, v.key);
      ApplyElsewhere(rows, c, v.key);
    }
  }

  lemma TopArrives(changes: seq<Change>, a: seq<Change>, v: Change)
    requires OrderFree(VersionsFor(changes, v.key)) && !Disturbed(changes, v.key) && Tops(changes, v)
    requires Drawn(a, changes) && v in changes && v !in a
    ensures Lookup(ApplyAll(map[], a + [v]), v.key) == Some(NewRow(Lookup(ApplyAll(map[], a), v.key), v))
  {
    var rows := ApplyAll(map[], a);
    AlwaysRegisterIff(changes, v.key);
    assert RegisterAfter(a, v.key);
    OneMore(a, v, v.key);
    if v.key in rows {
      var top := Fold(ForKey(a, v.key)).value;
      TopIsDrawn(a, changes, v.key);
      FoldIsDelivered(ForKey(a, v.key));
      ForKeyMembers(a, v.key, top);
      assert Beats(VersionOf(v), top);
      assert IncomingWins(rows, v);
    }
    ApplyOwn(rows, v);
  }

  lemma NewRowStamp(previous: Option<Row>, v: Change)
    ensures RowStamp(v.key.kind, NewRow(previous, v)) == ChangeStamp(v)
  {
  }

  // The top version's row is made from what was there when it arrived, and nothing replaces it.
  lemma {:induction false} TopStays(changes: seq<Change>, before: seq<Change>, v: Change, after: seq<Change>)
    requires OrderFree(VersionsFor(changes, v.key)) && !Disturbed(changes, v.key) && Tops(changes, v)
    requires Drawn(before, changes) && v in changes && v !in before && Drawn(after, changes)
    ensures Lookup(ApplyAll(map[], before + [v] + after), v.key) == Some(NewRow(Lookup(ApplyAll(map[], before), v.key), v))
  {
    NewRowStamp(Lookup(ApplyAll(map[], before), v.key), v);
    if after == [] {
      TopArrives(changes, before, v);
      assert before + [v] + after == before + [v];
    } else {
      var n := |after| - 1;
      var a, c := before + [v] + after[..n], after[n];
      assert before + [v] + after == a + [c];
      TopStays(changes, before, v, after[..n]);
      OthersPassBy(changes, a, c, v);
    }
  }

  // Every order and repetition of the changes leaves the same whole row.
  ghost predicate WholeRowConverges(changes: seq<Change>, key: Key) {
    forall a: seq<Change>, b: seq<Change> :: SameChanges(changes, a) && SameChanges(changes, b) ==>
      Lookup(ApplyAll(map[], a), key) == Lookup(ApplyAll(map[], b), key)
  }

  lemma TopBeatsAll(changes: seq<Change>, v: Change)
    requires v in changes && OrderFree(VersionsFor(changes, v.key))
    requires Fold(ForKey(changes, v.key)) == Some(VersionOf(v))
    ensures Tops(changes, v)
  {
    var vs, deliveries := VersionsFor(changes, v.key), ForKey(changes, v.key);
    OrderFreeIff(vs);
    ForKeyMembers(changes, v.key, VersionOf(v));
    FoldIsTop(deliveries, vs);
    forall x <- changes | x.key == v.key && x != v ensures Beats(VersionOf(v), VersionOf(x)) {
      ForKeyMembers(changes, v.key, VersionOf(x));
    }
  }

  // Behind x alone, v makes its row from what x left.
  lemma TopBehind(changes: seq<Change>, x: Change, v: Change)
    requires OrderFree(VersionsFor(changes, v.key)) && !Disturbed(changes, v.key) && Tops(changes, v)
    requires v in changes && x in changes && x.key == v.key && x != v
    ensures Lookup(ApplyAll(map[], [x] + [v] + changes), v.key) == Some(NewRow(Some(NewRow(None, x)), v))
  {
    Unfolded(x, x, x);
    ApplyOwn(map[], x);
    assert Lookup(ApplyAll(map[], [x]), v.key) == Some(NewRow(None, x));
    TopStays(changes, [x], v, changes);
  }

  lemma SamePrefixed(changes: seq<Change>, prefix: seq<Change>)
    requires Drawn(prefix, changes)
    ensures SameChanges(changes, prefix + changes)
  {
  }

  lemma RowDependsOnOrder(changes: seq<Change>, x: Change, v: Change)
    requires v in changes && OrderFree(VersionsFor(changes, v.key)) && !Disturbed(changes, v.key) && Tops(changes, v)
    requires v.Delete? && x in changes && x.key == v.key && !KeepsNothingOf(x, v)
    ensures !WholeRowConverges(changes, v.key)
  {
    TopStays(changes, [], v, changes);
    TopBehind(changes, x, v);
    SamePrefixed(changes, [] + [v]);
    SamePrefixed(changes, [x] + [v]);
  }

  lemma FirstArrival(a: seq<Change>, v: Change) returns (before: seq<Change>, after: seq<Change>)
    requires v in a
    ensures a == before + [v] + after && v !in before
  {
    if a[0] == v {
      before, after := [], a[1..];
    } else {
      before, after := FirstArrival(a[1..], v);
      before := [a[0]] + before;
    }
  }

  /** An association's row is replaced whole, so stores always agree on it. */
  lemma AssociationsConverge(changes: seq<Change>, v: Change)
    requires v in changes && v.key.kind.AssociationKind? && OrderFree(VersionsFor(changes, v.key))
    requires Fold(ForKey(changes, v.key)) == Some(VersionOf(v))
    ensures WholeRowConverges(changes, v.key)
  {
    WholeRowConvergesIff(changes, v);
  }

  lemma RowFromAnyOrder(changes: seq<Change>, a: seq<Change>, v: Change)
    requires v in changes && OrderFree(VersionsFor(changes, v.key)) && !Disturbed(changes, v.key) && Tops(changes, v)
    requires SameChanges(changes, a)
    requires v.Edit? || forall x <- changes :: x.key == v.key ==> KeepsNothingOf(x, v)
    ensures Lookup(ApplyAll(map[], a), v.key) == Some(NewRow(None, v))
  {
    var before, after := FirstArrival(a, v);
    assert forall c <- before :: c in a;
    assert forall c <- after :: c in a;
    TopStays(changes, before, v, after);
    if v.Delete? {
      RowsStayPlain(changes, before, v);
    }
  }

  /**
   Stores agree on the whole row of a key, whatever the order and repetition, exactly if its top
   version is an edit, or is a delete that from each of the versions delivered, arrived alone,
   would keep nothing but what it writes itself.
   */
  lemma WholeRowConvergesIff(changes: seq<Change>, v: Change)
    requires v in changes && OrderFree(VersionsFor(changes, v.key)) && !Disturbed(changes, v.key)
    requires Fold(ForKey(changes, v.key)) == Some(VersionOf(v))
    ensures WholeRowConverges(changes, v.key) <==> v.Edit? || forall x <- changes :: x.key == v.key ==> KeepsNothingOf(x, v)
  {
    TopBeatsAll(changes, v);
    if v.Edit? || forall x <- changes :: x.key == v.key ==> KeepsNothingOf(x, v) {
      forall a: seq<Change> | SameChanges(changes, a) ensures Lookup(ApplyAll(map[], a), v.key) == Some(NewRow(None, v)) {
        RowFromAnyOrder(changes, a, v);
      }
    } else {
      var x :| x in changes && x.key == v.key && !KeepsNothingOf(x, v);
      RowDependsOnOrder(changes, x, v);
    }
  }

  /** A tag's edit and the delete that has seen it: arriving first, the delete keeps no title. */
  lemma DeletedColumnsMayDiffer() returns (edit: Change, delete: Change)
    ensures edit.key == delete.key && OrderFree(VersionsFor([edit, delete], edit.key))
    ensures !WholeRowConverges([edit, delete], edit.key)
  {
    var key := Key(TagKind, 7);
    edit := Edit(key, Row("title", None, 1, 1, None, map[1 := 1], 1));
    delete := Delete(key, 2, map[1 := 1, 2 := 1], 2);
    NotSeen(edit.row.vv, delete.vv, 2);
    assert Beats(ChangeStamp(delete), ChangeStamp(edit));
    Unfolded(edit, delete, delete);
    Unfolded(delete, edit, edit);
    assert ApplyAll(map[], [edit, delete])[key].content == "title";
    assert ApplyAll(map[], [delete, edit])[key].content == "";
    assert SameChanges([edit, delete], [delete, edit]) && SameChanges([edit, delete], [edit, delete]);
    PairIsOrderFree(VersionOf(edit), VersionOf(delete), VersionsFor([edit, delete], key)) by {
      forall v <- VersionsFor([edit, delete], key) ensures v == VersionOf(edit) || v == VersionOf(delete) {
        ForKeyMembers([edit, delete], key, v);
      }
    }
  }

  // ---- The note log's winner is the same register ----

  function HeadVersion(e: Entry): Version<Op> {
    Version(e.vv, e.timestamp, e.device, e.op)
  }

  lemma HeadIsEvent(s: System, d: Device, order: seq<Device>, h: Entry) returns (e: Event)
    requires Inv(s) && d < |s.disk| && IsListing(s, d, order) && h in Heads(Files(s, d, order))
    ensures Exists(s, e) && EntryOf(s, e) == h
  {
    HeadsOfListing(s, d, order, h);
    var t: Device :| t < |s.disk| && IsVisibleHead(s, d, t, h);
    e := HeadEvent(s, d, t);
  }

  lemma HeadsIdentified(s: System, d: Device, order: seq<Device>, g: Entry, h: Entry)
    requires Inv(s) && d < |s.disk| && IsListing(s, d, order)
    requires g in Heads(Files(s, d, order)) && h in Heads(Files(s, d, order))
    ensures g.device == h.device ==> g == h
    ensures Dominates(g.vv, h.vv) && Dominates(h.vv, g.vv) ==> g == h
  {
    ListingHeads(s, d, order);
    var heads := Heads(Files(s, d, order));
    var i :| 0 <= i < |heads| && heads[i] == g;
    var j :| 0 <= j < |heads| && heads[j] == h;
    assert g.device == h.device ==> i == j;
    var e := HeadIsEvent(s, d, order, g);
    var f := HeadIsEvent(s, d, order, h);
    VectorsAreCausalityInv(s, e, f);
    VectorsAreCausalityInv(s, f, e);
  }

  // The heads, each delivered at least once, and nothing else.
  ghost predicate AreHeads(deliveries: seq<Version<Op>>, heads: seq<Entry>) {
    && (forall h <- heads :: HeadVersion(h) in deliveries)
    && (forall v <- deliveries :: exists h <- heads :: HeadVersion(h) == v)
  }

  lemma HeadsAreHonest(s: System, d: Device, order: seq<Device>, deliveries: seq<Version<Op>>)
    requires Inv(s) && d < |s.disk| && IsListing(s, d, order)
    requires AreHeads(deliveries, Heads(Files(s, d, order)))
    ensures var vs := Delivered(deliveries); VectorsIdentify(vs) && StampsDiffer(vs)
  {
    var heads := Heads(Files(s, d, order));
    forall u <- deliveries, v <- deliveries
      ensures u.writer == v.writer ==> u == v
      ensures Dominates(u.vv, v.vv) && Dominates(v.vv, u.vv) ==> u == v
    {
      var g :| g in heads && HeadVersion(g) == u;
      var h :| h in heads && HeadVersion(h) == v;
      HeadsIdentified(s, d, order, g, h);
    }
  }

  // The undominated head nobody outranks is the greatest of all heads, when clocks follow causality.
  lemma TopHeadIsWinner(heads: seq<Entry>, top: Entry, winner: Entry)
    requires NoTwins(heads) && top in heads && Undominated(heads, winner)
    requires forall h <- heads :: Undominated(heads, h) ==> !Outranks(h, winner)
    requires forall h <- heads :: h != top ==> Outranks(top, h)
    requires forall g <- heads :: Dominates(g.vv, top.vv) && !Dominates(top.vv, g.vv) ==> Outranks(g, top)
    ensures top == winner
  {
    forall g <- heads ensures !(Dominates(g.vv, top.vv) && g.vv != top.vv) {
      if Dominates(g.vv, top.vv) && g.vv != top.vv {
        assert false;
      }
    }
    assert Undominated(heads, top);
  }

  lemma TopOfHeads(heads: seq<Entry>, deliveries: seq<Version<Op>>) returns (e: Entry)
    requires deliveries != [] && AreHeads(deliveries, heads) && Honest(Delivered(deliveries))
    ensures e in heads && Fold(deliveries) == Some(HeadVersion(e))
    ensures forall h <- heads :: h != e ==> Outranks(e, h)
  {
    var vs := Delivered(deliveries);
    HonestVersionsConverge(vs);
    OrderFreeIff(vs);
    FoldIsTop(deliveries, vs);
    var top := Fold(deliveries).value;
    e :| e in heads && HeadVersion(e) == top;
    forall h <- heads ensures h != e ==> Outranks(e, h) {
      assert HeadVersion(h) in vs && HeadVersion(e) in vs;
      assert h != e ==> Beats(top, HeadVersion(h));
    }
  }

  lemma FoldedHeadWins(logs: seq<Log>, deliveries: seq<Version<Op>>) returns (e: Entry)
    requires Mergeable(logs) && NoTwins(Heads(logs))
    requires deliveries != [] && AreHeads(deliveries, Heads(logs)) && Honest(Delivered(deliveries))
    ensures Fold(deliveries) == Some(HeadVersion(e)) && e in Heads(logs)
    ensures e == Greatest(Frontier(Heads(logs), Heads(logs)))
  {
    var heads := Heads(logs);
    e := TopOfHeads(heads, deliveries);
    var winner := WinnerMeaning(logs);
    forall h <- heads | Dominates(h.vv, e.vv) && !Dominates(e.vv, h.vv) ensures Outranks(h, e) {
      assert HeadVersion(h) in deliveries && HeadVersion(e) in deliveries;
      assert KeyAbove(HeadVersion(h), HeadVersion(e));
    }
    TopHeadIsWinner(heads, e, winner);
  }

  /**
   In every run where the visible heads' clocks follow causality, delivering the heads to a register
   in any order, with any repetition, leaves the winner that merging the logs finds. That equal vectors
   identify an entry need not be assumed here: writes start from a join.
   */
  lemma RegisterIsMergeWinner(n: nat, steps: seq<Step>, d: Device, order: seq<Device>, deliveries: seq<Version<Op>>)
    requires Legal(n, steps) && d < |Run(n, steps).disk| && IsListing(Run(n, steps), d, order)
    requires deliveries != [] && AreHeads(deliveries, Heads(Files(Run(n, steps), d, order)))
    requires ClocksFollowCausality(Delivered(deliveries))
    ensures var files := Files(Run(n, steps), d, order);
            && Mergeable(files) && Fold(deliveries).Some?
            && Fold(deliveries).value.vv == Merge(files).winnerVv
            && Some(Fold(deliveries).value.writer) == Merge(files).winnerDevice
            && (Fold(deliveries).value.payload.Upsert? ==> Merge(files).note == Some(Fold(deliveries).value.payload.note))
  {
    RunInv(n, steps);
    ListingHeads(Run(n, steps), d, order);
    HeadsAreHonest(Run(n, steps), d, order, deliveries);
    var files := Files(Run(n, steps), d, order);
    var e := FoldedHeadWins(files, deliveries);
    var winner := WinnerMeaning(files);
  }
}
