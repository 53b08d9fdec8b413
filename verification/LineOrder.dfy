/** What operations do to the order of the lines. */
module LineOrder {
  import opened Wrappers
  import opened LineMirror
  import opened LineDiff

  lemma {:induction false} WithoutContents(s: seq<LineId>, gone: seq<LineId>)
    ensures forall id :: id in Without(s, gone) <==> id in s && id !in gone
    ensures Distinct(s) ==> Distinct(Without(s, gone))
  {
    if s != [] {
      WithoutContents(s[..|s| - 1], gone);
      assert s == s[..|s| - 1] + [s[|s| - 1]];
    }
  }

  /** Which operations keep the order free of duplicates, exactly. */
  lemma DistinctKeptIff(m: Mirror, op: LineOp)
    requires Distinct(m.order)
    ensures Distinct(Applied(m, op).order)
            <==> match op
                 case Insert(_, id, _, _, _, _) => id !in m.order
                 case Move(ids, _, _, _, _) => Distinct(ids)
                 case _ => true
  {
    if op.Insert? {
      var pos := PlaceAfter(m.order, op.after);
      InsertDistinctIff(m.order, pos, [op.id]);
    } else if op.Move? {
      var rest := Without(m.order, op.ids);
      WithoutContents(m.order, op.ids);
      InsertDistinctIff(rest, PlaceAfter(rest, op.after), op.ids);
    }
  }

  lemma InsertDistinctIff(order: seq<LineId>, pos: nat, xs: seq<LineId>)
    requires pos <= |order| && Distinct(order)
    ensures Distinct(InsertAt(order, pos, xs)) <==> Distinct(xs) && Disjoint(xs, order)
  {
    if Distinct(xs) && Disjoint(xs, order) {
      DistinctInsert(order, pos, xs);
    }
    if Distinct(InsertAt(order, pos, xs)) {
      assert InsertAt(order, pos, xs) == order[..pos] + (xs + order[pos..]);
      DistinctParts(order[..pos], xs + order[pos..]);
      DistinctParts(xs, order[pos..]);
      assert order == order[..pos] + order[pos..];
      assert forall id <- xs :: id in xs + order[pos..];
    }
  }

  predicate WellFormedMove(m: Mirror, op: LineOp) {
    op.Move? && Distinct(op.ids) && forall id <- op.ids :: id in m.order
  }

  /** A move of known, distinct lines permutes the order. */
  lemma MovePermutes(m: Mirror, op: LineOp)
    requires Distinct(m.order) && WellFormedMove(m, op)
    ensures multiset(Applied(m, op).order) == multiset(m.order)
  {
    var rest, r := Without(m.order, op.ids), Applied(m, op).order;
    var pos := PlaceAfter(rest, op.after);
    WithoutContents(m.order, op.ids);
    DistinctKeptIff(m, op);
    assert rest == rest[..pos] + rest[pos..];
    assert forall id :: id in rest <==> id in rest[..pos] || id in rest[pos..];
    assert forall id :: id in r <==> id in rest || id in op.ids;
    SameElements(r, m.order);
  }

  /** A move leaves the other lines in their relative order. */
  lemma MoveKeepsOthers(m: Mirror, op: LineOp)
    requires op.Move?
    ensures Without(Applied(m, op).order, op.ids) == Without(m.order, op.ids)
  {
    var rest := Without(m.order, op.ids);
    var pos := PlaceAfter(rest, op.after);
    WithoutContents(m.order, op.ids);
    assert forall id <- rest[..pos] :: id in rest;
    assert forall id <- rest[pos..] :: id in rest;
    WithoutMiddle(rest[..pos], op.ids, rest[pos..]);
    assert rest == rest[..pos] + rest[pos..];
  }

  lemma LandsBehind(rest: seq<LineId>, x: LineId, ids: seq<LineId>)
    requires x in rest
    ensures exists a, b :: InsertAt(rest, PlaceAfter(rest, Some(x)), ids) == a + [x] + ids + b
  {
    var pos := PlaceAfter(rest, Some(x));
    assert rest[..pos] == rest[..pos - 1] + [x];
    assert InsertAt(rest, pos, ids) == rest[..pos - 1] + [x] + ids + rest[pos..];
  }

  /** The moved lines stand together behind the anchor, first if there is none, last if it is not among the others. */
  lemma MoveLands(m: Mirror, op: LineOp)
    requires op.Move?
    ensures match op.after
            case None => Applied(m, op).order == op.ids + Without(m.order, op.ids)
            case Some(x) =>
              if x in m.order && x !in op.ids
              then exists a, b :: Applied(m, op).order == a + [x] + op.ids + b
              else Applied(m, op).order == Without(m.order, op.ids) + op.ids
  {
    var rest := Without(m.order, op.ids);
    WithoutContents(m.order, op.ids);
    if op.after.Some? && op.after.value in rest {
      LandsBehind(rest, op.after.value, op.ids);
    }
  }

  lemma SameElements(a: seq<LineId>, b: seq<LineId>)
    requires Distinct(a) && Distinct(b) && forall id :: id in a <==> id in b
    ensures multiset(a) == multiset(b)
  {
    forall id ensures multiset(a)[id] == multiset(b)[id] {
      CountOfDistinct(a, id);
      CountOfDistinct(b, id);
    }
  }

  lemma {:induction false} CountOfDistinct(s: seq<LineId>, id: LineId)
    requires Distinct(s)
    ensures multiset(s)[id] == if id in s then 1 else 0
  {
    if s != [] {
      var front, last := s[..|s| - 1], s[|s| - 1];
      CountOfDistinct(front, id);
      assert s == front + [last];
      assert last !in front;
    }
  }
}
