/** The edit script that turns a mirror into a given body, and the proof that it does. */
module LineDiff {
  import opened Wrappers
  import opened VersionVectors
  import opened LineMirror

  // ---- The edit script ----

  predicate SamePrefix(a: seq<string>, b: seq<string>, n: nat) {
    n <= |a| && n <= |b| && forall i :: 0 <= i < n ==> a[i] == b[i]
  }

  predicate SameSuffix(a: seq<string>, b: seq<string>, n: nat) {
    n <= |a| && n <= |b| && forall j :: |a| - n <= j < |a| ==> a[j] == b[|b| - |a| + j]
  }

  function CommonPrefix(a: seq<string>, b: seq<string>, k: nat := 0): (n: nat)
    requires SamePrefix(a, b, k)
    ensures k <= n && SamePrefix(a, b, n)
    ensures n < |a| && n < |b| ==> a[n] != b[n]
    decreases |a| - k
  {
    if k < |a| && k < |b| && a[k] == b[k] then CommonPrefix(a, b, k + 1) else k
  }

  // The suffix does not reach into the prefix already kept.
  function CommonSuffix(a: seq<string>, b: seq<string>, prefix: nat, k: nat := 0): (n: nat)
    requires SameSuffix(a, b, k) && prefix + k <= |a| && prefix + k <= |b|
    ensures k <= n && SameSuffix(a, b, n) && prefix + n <= |a| && prefix + n <= |b|
    ensures prefix + n < |a| && prefix + n < |b| ==> a[|a| - 1 - n] != b[|b| - 1 - n]
    decreases |a| - k
  {
    if k < |a| - prefix && k < |b| - prefix && a[|a| - 1 - k] == b[|b| - 1 - k] then CommonSuffix(a, b, prefix, k + 1) else k
  }

  // Who writes, and when.
  datatype Stamp = Stamp(device: Device, at: Time)

  function Bumped(vv: Vector, d: Device, times: nat): Vector {
    if times == 0 then vv else Increment(Bumped(vv, d, times - 1), d)
  }

  // The first n ids get the first n contents, where they differ.
  function UpdateOps(m: Mirror, ids: seq<LineId>, contents: seq<string>, n: nat, stamp: Stamp): seq<LineOp>
    requires n <= |ids| && n <= |contents| && forall id <- ids :: id in m.lines
  {
    if n == 0 then []
    else
      var id, line := ids[n - 1], m.lines[ids[n - 1]];
      UpdateOps(m, ids, contents, n - 1, stamp) +
      (if line.content != contents[n - 1]
       then [Update(id, contents[n - 1], Increment(line.vv, stamp.device), stamp.device, stamp.at)] else [])
  }

  function DeleteOps(m: Mirror, ids: seq<LineId>, n: nat, stamp: Stamp): seq<LineOp>
    requires n <= |ids| && forall id <- ids :: id in m.lines
  {
    if n == 0 then []
    else
      var id := ids[n - 1];
      DeleteOps(m, ids, n - 1, stamp) +
      [Delete(id, stamp.at, Increment(m.lines[id].vv, stamp.device), stamp.device, stamp.at)]
  }

  // One line after the other, the first behind the anchor.
  function InsertOps(vv: Vector, anchor: Option<LineId>, contents: seq<string>, supply: seq<LineId>, n: nat, stamp: Stamp): seq<LineOp>
    requires n <= |contents| && n <= |supply|
  {
    if n == 0 then []
    else
      InsertOps(vv, anchor, contents, supply, n - 1, stamp) + [InsertOp(vv, anchor, contents, supply, n - 1, stamp)]
  }

  function InsertOp(vv: Vector, anchor: Option<LineId>, contents: seq<string>, supply: seq<LineId>, n: nat, stamp: Stamp): LineOp
    requires n < |contents| && n < |supply|
  {
    Insert(AnchorOf(anchor, supply, n), supply[n], contents[n], Bumped(vv, stamp.device, n + 1), stamp.device, stamp.at)
  }

  function AnchorOf(anchor: Option<LineId>, supply: seq<LineId>, n: nat): Option<LineId>
    requires n <= |supply|
  {
    if n == 0 then anchor else Some(supply[n - 1])
  }

  // How many lines at either end a diff keeps.
  datatype Kept = Kept(prefix: nat, suffix: nat)

  // The longest common prefix, and the longest common suffix that does not reach into it.
  ghost predicate LongestEnds(a: seq<string>, b: seq<string>, p: nat, q: nat) {
    && p + q <= |a| && p + q <= |b| && SamePrefix(a, b, p) && SameSuffix(a, b, q)
    && (forall n: nat :: SamePrefix(a, b, n) ==> n <= p)
    && (forall n: nat :: SameSuffix(a, b, n) && p + n <= |a| && p + n <= |b| ==> n <= q)
  }

  function KeptOf(before: seq<string>, after: seq<string>): (k: Kept)
    ensures k.prefix + k.suffix <= |before| && k.prefix + k.suffix <= |after|
    ensures SamePrefix(before, after, k.prefix) && SameSuffix(before, after, k.suffix)
    ensures before == after ==> k == Kept(|before|, 0)
  {
    var p := CommonPrefix(before, after);
    Kept(p, CommonSuffix(before, after, p))
  }

  /** A diff keeps all it can at both ends. */
  lemma KeepsLongestEnds(before: seq<string>, after: seq<string>)
    ensures LongestEnds(before, after, KeptOf(before, after).prefix, KeptOf(before, after).suffix)
  {
    var k := KeptOf(before, after);
    forall n: nat | n > k.prefix ensures !SamePrefix(before, after, n) {
      assert k.prefix < |before| && k.prefix < |after| ==> before[k.prefix] != after[k.prefix];
    }
    forall n: nat | n > k.suffix && k.prefix + n <= |before| && k.prefix + n <= |after| ensures !SameSuffix(before, after, n) {
      var j := |before| - 1 - k.suffix;
      assert before[j] != after[|after| - |before| + j];
    }
  }

  lemma LongestEndsUnique(before: seq<string>, after: seq<string>, p: nat, q: nat)
    requires LongestEnds(before, after, p, q)
    ensures KeptOf(before, after) == Kept(p, q)
  {
    KeepsLongestEnds(before, after);
  }

  /**
   What a diff compares. The live ids are `front + reused + dropped + back`, the new lines
   `newFront + rewritten + added + newBack`; the outer parts agree, `reused` lines are paired with
   `rewritten` content, and of `dropped` and `added` at most one is there.
   */
  datatype Window = Window(front: seq<LineId>, reused: seq<LineId>, dropped: seq<LineId>, back: seq<LineId>,
                           newFront: seq<string>, rewritten: seq<string>, added: seq<string>, newBack: seq<string>)

  function WindowOf(ids: seq<LineId>, k: Kept, lines: seq<string>): (w: Window)
    requires k.prefix + k.suffix <= |ids| && k.prefix + k.suffix <= |lines|
    ensures w.front + w.reused + w.dropped + w.back == ids
    ensures w.newFront + w.rewritten + w.added + w.newBack == lines
    ensures |w.front| == |w.newFront| == k.prefix && |w.back| == |w.newBack| == k.suffix
    ensures |w.reused| == |w.rewritten| && (w.dropped == [] || w.added == [])
  {
    var p, i, j := k.prefix, |ids| - k.suffix, |lines| - k.suffix;
    var cut := if i < j then i else j;
    Window(ids[..p], ids[p..cut], ids[cut..i], ids[i..], lines[..p], lines[p..cut], lines[cut..j], lines[j..])
  }

  function Last(ids: seq<LineId>): Option<LineId> {
    if ids == [] then None else Some(ids[|ids| - 1])
  }

  // The window by index, as the loops cut it.
  lemma WindowSlices(ids: seq<LineId>, k: Kept, lines: seq<string>)
    requires k.prefix + k.suffix <= |ids| && k.prefix + k.suffix <= |lines|
    ensures var w := WindowOf(ids, k, lines);
            var oldMid, newMid := ids[k.prefix..|ids| - k.suffix], lines[k.prefix..|lines| - k.suffix];
            var paired := if |oldMid| < |newMid| then |oldMid| else |newMid|;
            && oldMid[..paired] == w.reused && oldMid[paired..] == w.dropped
            && newMid[..paired] == w.rewritten && newMid[paired..] == w.added
  {
  }

  lemma WindowAnchor(ids: seq<LineId>, k: Kept, lines: seq<string>)
    requires k.prefix + k.suffix <= |ids| && k.prefix + k.suffix <= |lines|
    ensures var w := WindowOf(ids, k, lines);
            Last(w.front + w.reused) == if w.reused != [] then Last(w.reused)
                                        else if k.prefix > 0 then Some(ids[k.prefix - 1])
                                        else None
  {
    var w := WindowOf(ids, k, lines);
    if w.reused == [] {
      assert w.front + w.reused == w.front;
    }
  }

  function ScriptOf(m: Mirror, w: Window, stamp: Stamp, supply: seq<LineId>): seq<LineOp>
    requires |w.reused| == |w.rewritten| && |w.added| <= |supply|
    requires forall id <- w.reused :: id in m.lines
    requires forall id <- w.dropped :: id in m.lines
  {
    UpdateOps(m, w.reused, w.rewritten, |w.reused|, stamp) +
    DeleteOps(m, w.dropped, |w.dropped|, stamp) +
    InsertOps(m.vv, Last(w.front + w.reused), w.added, supply, |w.added|, stamp)
  }

  function DiffWindow(m: Mirror, lines: seq<string>): Window {
    WindowOf(Live(m), KeptOf(View(m), lines), lines)
  }

  lemma WindowIds(m: Mirror, w: Window)
    requires w.front + w.reused + w.dropped + w.back == Live(m)
    ensures forall id <- w.front :: id in Text(m) && id in m.order
    ensures forall id <- w.reused :: id in Text(m) && id in m.order
    ensures forall id <- w.dropped :: id in Text(m) && id in m.order
    ensures forall id <- w.back :: id in Text(m) && id in m.order
  {
    var ids := Live(m);
    LiveIdsInText(m.order, Text(m));
    assert forall id <- w.front :: id in ids;
    assert forall id <- w.reused :: id in ids;
    assert forall id <- w.dropped :: id in ids;
    assert forall id <- w.back :: id in ids;
  }

  function DiffOps(m: Mirror, lines: seq<string>, stamp: Stamp, supply: seq<LineId>): seq<LineOp>
    requires |supply| >= |lines|
  {
    var w := DiffWindow(m, lines);
    WindowIds(m, w);
    ScriptOf(m, w, stamp, supply)
  }

  // ---- What each part of the script does ----

  lemma {:induction false} EffectsInTurn(s: Shape, a: seq<LineOp>, b: seq<LineOp>)
    ensures EffectAll(s, a + b) == EffectAll(EffectAll(s, a), b)
  {
    if b == [] {
      assert a + b == a;
    } else {
      assert (a + b)[..|a + b| - 1] == a + b[..|b| - 1];
      EffectsInTurn(s, a, b[..|b| - 1]);
    }
  }

  lemma LastEffect(s: Shape, ops: seq<LineOp>, op: LineOp)
    ensures EffectAll(s, ops + [op]) == Effect(EffectAll(s, ops), op)
  {
    assert (ops + [op])[..|ops|] == ops;
  }

  function Overwritten(text: map<LineId, string>, ids: seq<LineId>, contents: seq<string>, n: nat): map<LineId, string>
    requires n <= |ids| && n <= |contents|
  {
    if n == 0 then text else Overwritten(text, ids, contents, n - 1)[ids[n - 1] := contents[n - 1]]
  }

  lemma {:induction false} OverwrittenElsewhere(text: map<LineId, string>, ids: seq<LineId>, contents: seq<string>, n: nat, id: LineId)
    requires n <= |ids| && n <= |contents|
    ensures var after := Overwritten(text, ids, contents, n);
            && (id in after <==> id in text || id in ids[..n])
            && (id in text && id !in ids[..n] ==> after[id] == text[id])
  {
    if n > 0 {
      OverwrittenElsewhere(text, ids, contents, n - 1, id);
      assert ids[..n] == ids[..n - 1] + [ids[n - 1]];
    }
  }

  lemma {:induction false} OverwrittenAt(text: map<LineId, string>, ids: seq<LineId>, contents: seq<string>, n: nat, i: nat)
    requires i < n <= |ids| && n <= |contents| && Distinct(ids)
    ensures ids[i] in Overwritten(text, ids, contents, n)
    ensures Overwritten(text, ids, contents, n)[ids[i]] == contents[i]
  {
    if i < n - 1 {
      OverwrittenAt(text, ids, contents, n - 1, i);
      assert ids[i] != ids[n - 1];
    }
  }

  function Erased(text: map<LineId, string>, ids: seq<LineId>, n: nat): map<LineId, string>
    requires n <= |ids|
  {
    if n == 0 then text else Erased(text, ids, n - 1) - {ids[n - 1]}
  }

  lemma {:induction false} ErasedAt(text: map<LineId, string>, ids: seq<LineId>, n: nat)
    requires n <= |ids|
    ensures Erased(text, ids, n) == map id | id in text && id !in ids[..n] :: text[id]
  {
    if n > 0 {
      ErasedAt(text, ids, n - 1);
      assert ids[..n] == ids[..n - 1] + [ids[n - 1]];
    } else {
      assert ids[..0] == [];
    }
  }

  // A line whose content does not differ gets no update.
  lemma UpdateSkipped(text: map<LineId, string>, ids: seq<LineId>, contents: seq<string>, n: nat)
    requires 0 < n <= |ids| && n <= |contents| && Distinct(ids)
    requires ids[n - 1] in text && text[ids[n - 1]] == contents[n - 1]
    ensures Overwritten(text, ids, contents, n) == Overwritten(text, ids, contents, n - 1)
  {
    var id := ids[n - 1];
    OverwrittenElsewhere(text, ids, contents, n - 1, id);
    assert id !in ids[..n - 1];
    var after := Overwritten(text, ids, contents, n - 1);
    assert after[id := contents[n - 1]] == after;
  }

  lemma {:induction false} UpdatesEffect(m: Mirror, ids: seq<LineId>, contents: seq<string>, n: nat, stamp: Stamp)
    requires n <= |ids| && n <= |contents| && Distinct(ids)
    requires forall id <- ids :: id in m.lines && id in Text(m)
    ensures EffectAll(ShapeOf(m), UpdateOps(m, ids, contents, n, stamp))
            == ShapeOf(m).(text := Overwritten(Text(m), ids, contents, n))
  {
    if n > 0 {
      UpdatesEffect(m, ids, contents, n - 1, stamp);
      var id, line := ids[n - 1], m.lines[ids[n - 1]];
      assert id in ids;
      var earlier := UpdateOps(m, ids, contents, n - 1, stamp);
      if line.content != contents[n - 1] {
        LastEffect(ShapeOf(m), earlier, Update(id, contents[n - 1], Increment(line.vv, stamp.device), stamp.device, stamp.at));
      } else {
        assert UpdateOps(m, ids, contents, n, stamp) == earlier;
        UpdateSkipped(Text(m), ids, contents, n);
      }
    }
  }

  lemma {:induction false} DeletesEffect(m: Mirror, start: Shape, ids: seq<LineId>, n: nat, stamp: Stamp)
    requires n <= |ids| && start.known == m.lines.Keys
    requires forall id <- ids :: id in m.lines
    ensures EffectAll(start, DeleteOps(m, ids, n, stamp)) == start.(text := Erased(start.text, ids, n))
  {
    if n > 0 {
      DeletesEffect(m, start, ids, n - 1, stamp);
      var id := ids[n - 1];
      LastEffect(start, DeleteOps(m, ids, n - 1, stamp), Delete(id, stamp.at, Increment(m.lines[id].vv, stamp.device), stamp.device, stamp.at));
    }
  }

  lemma IndexOfUnique(s: seq<LineId>, i: nat)
    requires i < |s| && forall j :: 0 <= j < i ==> s[j] != s[i]
    ensures IndexOf(s, s[i]) == i
  {
  }

  // The next line lands right behind the one inserted before it.
  lemma NextInsertPlace(order: seq<LineId>, pos: nat, anchor: Option<LineId>, supply: seq<LineId>, n: nat)
    requires n < |supply| && Distinct(supply) && (forall id <- supply :: id !in order)
    requires pos == PlaceAfter(order, anchor)
    ensures PlaceAfter(InsertAt(order, pos, supply[..n]), AnchorOf(anchor, supply, n)) == pos + n
  {
    var longer := InsertAt(order, pos, supply[..n]);
    if n > 0 {
      var i := pos + n - 1;
      assert longer[i] == supply[n - 1] && supply[n - 1] in supply;
      forall j | 0 <= j < i ensures longer[j] != supply[n - 1] {
        assert longer[j] == if j < pos then order[j] else supply[j - pos];
      }
      IndexOfUnique(longer, i);
    } else {
      assert longer == order;
    }
  }

  lemma InsertAtNext(order: seq<LineId>, pos: nat, supply: seq<LineId>, n: nat)
    requires n < |supply| && pos <= |order|
    ensures InsertAt(InsertAt(order, pos, supply[..n]), pos + n, [supply[n]]) == InsertAt(order, pos, supply[..n + 1])
  {
    assert supply[..n + 1] == supply[..n] + [supply[n]];
  }

  lemma InsertEffect(s: Shape, op: LineOp)
    requires op.Insert?
    ensures Effect(s, op).order == InsertAt(s.order, PlaceAfter(s.order, op.after), [op.id])
    ensures Effect(s, op).text == s.text[op.id := op.content]
  {
  }

  lemma {:induction false} InsertsText(s: Shape, vv: Vector, anchor: Option<LineId>, contents: seq<string>,
                                       supply: seq<LineId>, n: nat, stamp: Stamp)
    requires n <= |contents| && n <= |supply|
    ensures EffectAll(s, InsertOps(vv, anchor, contents, supply, n, stamp)).text == Overwritten(s.text, supply, contents, n)
  {
    if n > 0 {
      InsertsText(s, vv, anchor, contents, supply, n - 1, stamp);
      var earlier, op := InsertOps(vv, anchor, contents, supply, n - 1, stamp), InsertOp(vv, anchor, contents, supply, n - 1, stamp);
      LastEffect(s, earlier, op);
      InsertEffect(EffectAll(s, earlier), op);
    }
  }

  lemma NextInsert(order: seq<LineId>, anchor: Option<LineId>, supply: seq<LineId>, n: nat)
    requires n < |supply| && Distinct(supply) && (forall id <- supply :: id !in order)
    ensures var pos, longer := PlaceAfter(order, anchor), InsertAt(order, PlaceAfter(order, anchor), supply[..n]);
            InsertAt(longer, PlaceAfter(longer, AnchorOf(anchor, supply, n)), [supply[n]]) == InsertAt(order, pos, supply[..n + 1])
  {
    NextInsertPlace(order, PlaceAfter(order, anchor), anchor, supply, n);
    InsertAtNext(order, PlaceAfter(order, anchor), supply, n);
  }

  lemma {:induction false} InsertsOrder(s: Shape, vv: Vector, anchor: Option<LineId>, contents: seq<string>,
                                        supply: seq<LineId>, n: nat, stamp: Stamp)
    requires n <= |contents| && n <= |supply| && Distinct(supply)
    requires forall id <- supply :: id !in s.order
    ensures EffectAll(s, InsertOps(vv, anchor, contents, supply, n, stamp)).order
            == InsertAt(s.order, PlaceAfter(s.order, anchor), supply[..n])
  {
    if n == 0 {
      assert InsertAt(s.order, PlaceAfter(s.order, anchor), supply[..0]) == s.order;
    } else {
      InsertsOrder(s, vv, anchor, contents, supply, n - 1, stamp);
      var earlier, op := InsertOps(vv, anchor, contents, supply, n - 1, stamp), InsertOp(vv, anchor, contents, supply, n - 1, stamp);
      LastEffect(s, earlier, op);
      InsertEffect(EffectAll(s, earlier), op);
      NextInsert(s.order, anchor, supply, n - 1);
    }
  }

  // ---- Which lines are live in a list ----

  lemma {:induction false} LiveConcat(a: seq<LineId>, b: seq<LineId>, text: map<LineId, string>)
    ensures LiveIds(a + b, text) == LiveIds(a, text) + LiveIds(b, text)
  {
    if b == [] {
      assert a + b == a;
    } else {
      assert (a + b)[..|a + b| - 1] == a + b[..|b| - 1];
      LiveConcat(a, b[..|b| - 1], text);
    }
  }

  lemma {:induction false} LiveDistinct(order: seq<LineId>, text: map<LineId, string>)
    requires Distinct(order)
    ensures Distinct(LiveIds(order, text))
  {
    if order != [] {
      var front := order[..|order| - 1];
      LiveDistinct(front, text);
      LiveIdsInText(front, text);
      assert order[|order| - 1] !in front;
      assert order[|order| - 1] !in LiveIds(front, text);
    }
  }

  lemma {:induction false} LiveWithout(order: seq<LineId>, text: map<LineId, string>, gone: seq<LineId>, less: map<LineId, string>)
    requires forall id <- order :: id in less <==> id in text && id !in gone
    ensures LiveIds(order, less) == Without(LiveIds(order, text), gone)
  {
    if order != [] {
      var front, last := order[..|order| - 1], order[|order| - 1];
      LiveWithout(front, text, gone, less);
      assert last in order;
      var live := LiveIds(front, text);
      if last in text {
        assert (live + [last])[..|live|] == live;
      } else {
        assert live + [] == live;
      }
    }
  }

  lemma {:induction false} WithoutNone(s: seq<LineId>, gone: seq<LineId>)
    requires forall id <- s :: id !in gone
    ensures Without(s, gone) == s
  {
    if s != [] {
      WithoutNone(s[..|s| - 1], gone);
      assert s[|s| - 1] in s;
      assert s == s[..|s| - 1] + [s[|s| - 1]];
    }
  }

  lemma {:induction false} WithoutConcat(a: seq<LineId>, b: seq<LineId>, gone: seq<LineId>)
    ensures Without(a + b, gone) == Without(a, gone) + Without(b, gone)
  {
    if b == [] {
      assert a + b == a;
    } else {
      assert (a + b)[..|a + b| - 1] == a + b[..|b| - 1];
      WithoutConcat(a, b[..|b| - 1], gone);
    }
  }

  lemma {:induction false} WithoutAll(s: seq<LineId>, gone: seq<LineId>)
    requires forall id <- s :: id in gone
    ensures Without(s, gone) == []
  {
    if s != [] {
      WithoutAll(s[..|s| - 1], gone);
      assert s[|s| - 1] in s;
    }
  }

  lemma WithoutMiddle(a: seq<LineId>, gone: seq<LineId>, b: seq<LineId>)
    requires forall id <- a :: id !in gone
    requires forall id <- b :: id !in gone
    ensures Without(a + gone + b, gone) == a + b
  {
    assert Without(a + gone, gone) == a by {
      WithoutConcat(a, gone, gone);
      WithoutNone(a, gone);
      WithoutAll(gone, gone);
    }
    assert Without(b, gone) == b by {
      WithoutNone(b, gone);
    }
    WithoutConcat(a + gone, b, gone);
  }

  lemma CutAt(a: seq<LineId>, b: seq<LineId>, c: seq<LineId>, d: seq<LineId>)
    requires a + b == c + d && Distinct(a + b) && a != [] && c != [] && a[|a| - 1] == c[|c| - 1]
    ensures a == c && b == d
  {
    assert (a + b)[|a| - 1] == a[|a| - 1];
    assert (a + b)[|c| - 1] == (c + d)[|c| - 1] == c[|c| - 1];
    assert |a| == |c|;
    assert a == (a + b)[..|a|] && c == (c + d)[..|c|];
    assert b == (a + b)[|a|..] && d == (c + d)[|c|..];
  }

  lemma LiveLast(order: seq<LineId>, text: map<LineId, string>, i: nat)
    requires i < |order| && order[i] in text
    ensures var a := LiveIds(order[..i + 1], text); a != [] && a[|a| - 1] == order[i]
  {
    assert order[..i + 1][..i] == order[..i];
  }

  // Cutting the list behind a live line cuts the live lines behind it, whatever tombstones lie around.
  lemma LiveCut(order: seq<LineId>, text: map<LineId, string>, front: seq<LineId>, back: seq<LineId>)
    requires Distinct(order) && LiveIds(order, text) == front + back
    ensures var pos := PlaceAfter(order, Last(front));
            LiveIds(order[..pos], text) == front && LiveIds(order[pos..], text) == back
  {
    var pos := PlaceAfter(order, Last(front));
    assert order == order[..pos] + order[pos..];
    LiveConcat(order[..pos], order[pos..], text);
    if front != [] {
      LiveDistinct(order, text);
      LiveIdsInText(order, text);
      assert (front + back)[|front| - 1] == front[|front| - 1] && front[|front| - 1] in front + back;
      LiveLast(order, text, pos - 1);
      CutAt(LiveIds(order[..pos], text), LiveIds(order[pos..], text), front, back);
    }
  }

  lemma {:induction false} LiveSame(order: seq<LineId>, text: map<LineId, string>, other: map<LineId, string>)
    requires forall id <- order :: id in text <==> id in other
    ensures LiveIds(order, text) == LiveIds(order, other)
  {
    if order != [] {
      LiveSame(order[..|order| - 1], text, other);
      assert order[|order| - 1] in order;
    }
  }

  lemma {:induction false} LiveEvery(order: seq<LineId>, text: map<LineId, string>)
    requires forall id <- order :: id in text
    ensures LiveIds(order, text) == order
  {
    if order != [] {
      LiveEvery(order[..|order| - 1], text);
      assert order[|order| - 1] in order;
    }
  }

  // ---- The script turns the mirror into the new body ----

  predicate Supplied(m: Mirror, supply: seq<LineId>, n: nat) {
    |supply| >= n && Distinct(supply) && forall id <- supply :: id !in m.order
  }

  // These ids are live with these contents.
  predicate Shows(text: map<LineId, string>, ids: seq<LineId>, contents: seq<string>) {
    |ids| == |contents| && forall j :: 0 <= j < |ids| ==> ids[j] in text && text[ids[j]] == contents[j]
  }

  lemma ShowsConcat(text: map<LineId, string>, a: seq<LineId>, x: seq<string>, b: seq<LineId>, y: seq<string>)
    requires Shows(text, a, x) && Shows(text, b, y)
    ensures Shows(text, a + b, x + y)
  {
  }

  predicate Disjoint(a: seq<LineId>, b: seq<LineId>) {
    forall id <- a :: id !in b
  }

  lemma ErasedShows(text: map<LineId, string>, ids: seq<LineId>, contents: seq<string>, gone: seq<LineId>)
    requires Shows(text, ids, contents) && Disjoint(ids, gone)
    ensures Shows(Erased(text, gone, |gone|), ids, contents)
  {
    ErasedAt(text, gone, |gone|);
    assert gone[..|gone|] == gone;
    assert forall j :: 0 <= j < |ids| ==> ids[j] in ids;
  }

  lemma OverwrittenShows(text: map<LineId, string>, ids: seq<LineId>, contents: seq<string>,
                         over: seq<LineId>, news: seq<string>, n: nat)
    requires n <= |over| && n <= |news| && Shows(text, ids, contents) && Disjoint(ids, over[..n])
    ensures Shows(Overwritten(text, over, news, n), ids, contents)
  {
    forall j | 0 <= j < |ids|
      ensures ids[j] in Overwritten(text, over, news, n) && Overwritten(text, over, news, n)[ids[j]] == contents[j]
    {
      assert ids[j] in ids;
      OverwrittenElsewhere(text, over, news, n, ids[j]);
    }
  }

  lemma OverwrittenShowsNew(text: map<LineId, string>, over: seq<LineId>, news: seq<string>, n: nat)
    requires n <= |over| && n <= |news| && Distinct(over)
    ensures Shows(Overwritten(text, over, news, n), over[..n], news[..n])
  {
    forall i | 0 <= i < n
      ensures over[i] in Overwritten(text, over, news, n) && Overwritten(text, over, news, n)[over[i]] == news[i]
    {
      OverwrittenAt(text, over, news, n, i);
    }
  }

  // The window of these live ids, and ids for the new lines.
  predicate Fits(w: Window, text: map<LineId, string>, supply: seq<LineId>) {
    && |w.reused| == |w.rewritten| && (w.dropped == [] || w.added == []) && |w.added| <= |supply|
    && Shows(text, w.front, w.newFront) && Shows(text, w.back, w.newBack)
    && (forall id <- w.reused :: id in text)
    && Distinct(w.front + w.reused + w.dropped + w.back) && Distinct(supply)
    && Disjoint(w.front + w.reused + w.dropped + w.back, supply)
  }

  lemma DistinctParts(a: seq<LineId>, b: seq<LineId>)
    requires Distinct(a + b)
    ensures Distinct(a) && Distinct(b) && Disjoint(a, b) && Disjoint(b, a)
  {
    assert forall i :: 0 <= i < |a| ==> (a + b)[i] == a[i];
    assert forall i :: 0 <= i < |b| ==> (a + b)[|a| + i] == b[i];
  }

  lemma DisjointParts(a: seq<LineId>, b: seq<LineId>, c: seq<LineId>)
    requires Disjoint(a + b, c)
    ensures Disjoint(a, c) && Disjoint(b, c)
  {
    assert forall id <- a :: id in a + b;
    assert forall id <- b :: id in a + b;
  }

  lemma FitsParts(w: Window, text: map<LineId, string>, supply: seq<LineId>)
    requires Fits(w, text, supply)
    ensures Distinct(w.reused)
    ensures Disjoint(w.front, w.reused) && Disjoint(w.front, w.dropped)
    ensures Disjoint(w.back, w.reused) && Disjoint(w.back, w.dropped) && Disjoint(w.reused, w.dropped)
    ensures Disjoint(w.front, supply) && Disjoint(w.reused, supply) && Disjoint(w.back, supply)
  {
    DistinctParts(w.front + w.reused + w.dropped, w.back);
    DistinctParts(w.front + w.reused, w.dropped);
    DistinctParts(w.front, w.reused);
    DisjointParts(w.front + w.reused + w.dropped, w.back, supply);
    DisjointParts(w.front + w.reused, w.dropped, supply);
    DisjointParts(w.front, w.reused, supply);
    assert forall id <- w.back :: id !in w.front + w.reused + w.dropped;
    assert forall id <- w.front + w.reused :: id !in w.dropped;
    assert forall id <- w.front :: id in w.front + w.reused;
    assert forall id <- w.reused :: id in w.front + w.reused;
    assert forall id <- w.reused :: id in w.front + w.reused + w.dropped;
    assert forall id <- w.dropped :: id in w.front + w.reused + w.dropped;
  }

  // The text after all three parts of the script.
  function FinalText(text: map<LineId, string>, w: Window, supply: seq<LineId>): map<LineId, string>
    requires |w.reused| == |w.rewritten| && |w.added| <= |supply|
  {
    Overwritten(Erased(Overwritten(text, w.reused, w.rewritten, |w.reused|), w.dropped, |w.dropped|), supply, w.added, |w.added|)
  }

  // The live ids when the script is done: the kept ends, the reused middle lines, the new lines.
  function FinalIds(w: Window, supply: seq<LineId>): seq<LineId>
    requires |w.added| <= |supply|
  {
    w.front + w.reused + supply[..|w.added|] + w.back
  }

  lemma KeptLineShows(text: map<LineId, string>, w: Window, supply: seq<LineId>, ids: seq<LineId>, contents: seq<string>)
    requires |w.reused| == |w.rewritten| && |w.added| <= |supply|
    requires Shows(text, ids, contents) && Disjoint(ids, w.reused) && Disjoint(ids, w.dropped) && Disjoint(ids, supply)
    ensures Shows(FinalText(text, w, supply), ids, contents)
  {
    assert w.reused[..|w.reused|] == w.reused;
    OverwrittenShows(text, ids, contents, w.reused, w.rewritten, |w.reused|);
    var updated := Overwritten(text, w.reused, w.rewritten, |w.reused|);
    ErasedShows(updated, ids, contents, w.dropped);
    assert forall id <- supply[..|w.added|] :: id in supply;
    OverwrittenShows(Erased(updated, w.dropped, |w.dropped|), ids, contents, supply, w.added, |w.added|);
  }

  lemma ReusedLineShows(text: map<LineId, string>, w: Window, supply: seq<LineId>)
    requires |w.reused| == |w.rewritten| && |w.added| <= |supply|
    requires Distinct(w.reused) && Disjoint(w.reused, w.dropped) && Disjoint(w.reused, supply)
    ensures Shows(FinalText(text, w, supply), w.reused, w.rewritten)
  {
    assert w.reused[..|w.reused|] == w.reused && w.rewritten[..|w.rewritten|] == w.rewritten;
    OverwrittenShowsNew(text, w.reused, w.rewritten, |w.reused|);
    var updated := Overwritten(text, w.reused, w.rewritten, |w.reused|);
    ErasedShows(updated, w.reused, w.rewritten, w.dropped);
    assert forall id <- supply[..|w.added|] :: id in supply;
    OverwrittenShows(Erased(updated, w.dropped, |w.dropped|), w.reused, w.rewritten, supply, w.added, |w.added|);
  }

  lemma AddedLineShows(text: map<LineId, string>, w: Window, supply: seq<LineId>)
    requires |w.reused| == |w.rewritten| && |w.added| <= |supply| && Distinct(supply)
    ensures Shows(FinalText(text, w, supply), supply[..|w.added|], w.added)
  {
    assert w.added[..|w.added|] == w.added;
    OverwrittenShowsNew(Erased(Overwritten(text, w.reused, w.rewritten, |w.reused|), w.dropped, |w.dropped|), supply, w.added, |w.added|);
  }

  lemma FinalShows(text: map<LineId, string>, w: Window, supply: seq<LineId>)
    requires Fits(w, text, supply)
    ensures Shows(FinalText(text, w, supply), FinalIds(w, supply), w.newFront + w.rewritten + w.added + w.newBack)
  {
    FitsParts(w, text, supply);
    var final := FinalText(text, w, supply);
    KeptLineShows(text, w, supply, w.front, w.newFront);
    ReusedLineShows(text, w, supply);
    AddedLineShows(text, w, supply);
    KeptLineShows(text, w, supply, w.back, w.newBack);
    ShowsConcat(final, w.front, w.newFront, w.reused, w.rewritten);
    ShowsConcat(final, w.front + w.reused, w.newFront + w.rewritten, supply[..|w.added|], w.added);
    ShowsConcat(final, w.front + w.reused + supply[..|w.added|], w.newFront + w.rewritten + w.added, w.back, w.newBack);
  }

  // Of the lines there before, the dropped ones are no longer live, and only they.
  lemma StaysLive(text: map<LineId, string>, w: Window, supply: seq<LineId>, id: LineId)
    requires |w.reused| == |w.rewritten| && |w.added| <= |supply| && id !in supply
    requires forall x <- w.reused :: x in text
    ensures id in FinalText(text, w, supply) <==> id in text && id !in w.dropped
  {
    assert w.reused[..|w.reused|] == w.reused && w.dropped[..|w.dropped|] == w.dropped;
    assert forall x <- supply[..|w.added|] :: x in supply;
    OverwrittenElsewhere(text, w.reused, w.rewritten, |w.reused|, id);
    var updated := Overwritten(text, w.reused, w.rewritten, |w.reused|);
    ErasedAt(updated, w.dropped, |w.dropped|);
    OverwrittenElsewhere(Erased(updated, w.dropped, |w.dropped|), supply, w.added, |w.added|, id);
  }

  lemma LiveAfterDeletes(order: seq<LineId>, text: map<LineId, string>, w: Window, supply: seq<LineId>)
    requires Fits(w, text, supply) && w.added == [] && Disjoint(order, supply)
    requires LiveIds(order, text) == w.front + w.reused + w.dropped + w.back
    ensures LiveIds(order, FinalText(text, w, supply)) == FinalIds(w, supply)
  {
    forall id <- order ensures id in FinalText(text, w, supply) <==> id in text && id !in w.dropped {
      StaysLive(text, w, supply, id);
    }
    LiveWithout(order, text, w.dropped, FinalText(text, w, supply));
    FitsParts(w, text, supply);
    WithoutMiddle(w.front + w.reused, w.dropped, w.back);
    assert FinalIds(w, supply) == w.front + w.reused + w.back;
  }

  lemma LiveThree(a: seq<LineId>, b: seq<LineId>, c: seq<LineId>, text: map<LineId, string>)
    ensures LiveIds(a + b + c, text) == LiveIds(a, text) + LiveIds(b, text) + LiveIds(c, text)
  {
    LiveConcat(a, b, text);
    LiveConcat(a + b, c, text);
  }

  lemma LiveAfterInserts(order: seq<LineId>, text: map<LineId, string>, w: Window, supply: seq<LineId>)
    requires Fits(w, text, supply) && w.dropped == [] && Disjoint(order, supply) && Distinct(order)
    requires LiveIds(order, text) == w.front + w.reused + w.dropped + w.back
    ensures LiveIds(InsertAt(order, PlaceAfter(order, Last(w.front + w.reused)), supply[..|w.added|]), FinalText(text, w, supply))
            == FinalIds(w, supply)
  {
    var final, kept, sup := FinalText(text, w, supply), w.front + w.reused, supply[..|w.added|];
    var pos := PlaceAfter(order, Last(kept));
    assert LiveIds(order, text) == kept + w.back;
    LiveCut(order, text, kept, w.back);
    forall id <- order ensures id in final <==> id in text {
      StaysLive(text, w, supply, id);
    }
    LiveSame(order[..pos], text, final);
    LiveSame(order[pos..], text, final);
    AddedLineShows(text, w, supply);
    LiveEvery(sup, final);
    LiveThree(order[..pos], sup, order[pos..], final);
  }

  lemma UpdatesAndDeletesEffect(m: Mirror, ids: seq<LineId>, contents: seq<string>, gone: seq<LineId>, stamp: Stamp)
    requires |ids| == |contents| && Distinct(ids)
    requires forall id <- ids :: id in m.lines && id in Text(m)
    requires forall id <- gone :: id in m.lines
    ensures EffectAll(ShapeOf(m), UpdateOps(m, ids, contents, |ids|, stamp) + DeleteOps(m, gone, |gone|, stamp))
            == ShapeOf(m).(text := Erased(Overwritten(Text(m), ids, contents, |ids|), gone, |gone|))
  {
    UpdatesEffect(m, ids, contents, |ids|, stamp);
    DeletesEffect(m, ShapeOf(m).(text := Overwritten(Text(m), ids, contents, |ids|)), gone, |gone|, stamp);
    EffectsInTurn(ShapeOf(m), UpdateOps(m, ids, contents, |ids|, stamp), DeleteOps(m, gone, |gone|, stamp));
  }

  lemma ScriptEffect(m: Mirror, w: Window, stamp: Stamp, supply: seq<LineId>)
    requires Fits(w, Text(m), supply) && Distinct(w.reused) && Disjoint(m.order, supply)
    requires forall id <- w.reused :: id in m.lines && id in Text(m)
    requires forall id <- w.dropped :: id in m.lines
    ensures var r := EffectAll(ShapeOf(m), ScriptOf(m, w, stamp, supply));
            && r.order == InsertAt(m.order, PlaceAfter(m.order, Last(w.front + w.reused)), supply[..|w.added|])
            && r.text == FinalText(Text(m), w, supply)
  {
    var first := UpdateOps(m, w.reused, w.rewritten, |w.reused|, stamp) + DeleteOps(m, w.dropped, |w.dropped|, stamp);
    var anchor := Last(w.front + w.reused);
    UpdatesAndDeletesEffect(m, w.reused, w.rewritten, w.dropped, stamp);
    var mid := EffectAll(ShapeOf(m), first);
    assert forall id <- supply :: id !in mid.order;
    InsertsText(mid, m.vv, anchor, w.added, supply, |w.added|, stamp);
    InsertsOrder(mid, m.vv, anchor, w.added, supply, |w.added|, stamp);
    EffectsInTurn(ShapeOf(m), first, InsertOps(m.vv, anchor, w.added, supply, |w.added|, stamp));
  }

  lemma DistinctInsert(order: seq<LineId>, pos: nat, xs: seq<LineId>)
    requires pos <= |order| && Distinct(order) && Distinct(xs) && Disjoint(xs, order)
    ensures Distinct(InsertAt(order, pos, xs))
  {
    var r := InsertAt(order, pos, xs);
    forall i, j | 0 <= i < j < |r| ensures r[i] != r[j] {
      assert pos <= i < pos + |xs| ==> r[i] in xs;
      assert pos <= j < pos + |xs| ==> r[j] in xs;
    }
  }

  lemma KeptEndsShow(text: map<LineId, string>, ids: seq<LineId>, before: seq<string>, lines: seq<string>, k: Kept)
    requires Shows(text, ids, before) && SamePrefix(before, lines, k.prefix) && SameSuffix(before, lines, k.suffix)
    requires k.prefix + k.suffix <= |before| && k.prefix + k.suffix <= |lines|
    ensures var w := WindowOf(ids, k, lines);
            Shows(text, w.front, w.newFront) && Shows(text, w.back, w.newBack)
  {
    var w := WindowOf(ids, k, lines);
    forall j | 0 <= j < |w.back| ensures w.back[j] in text && text[w.back[j]] == w.newBack[j] {
      assert before[|before| - k.suffix + j] == lines[|lines| - k.suffix + j];
    }
  }

  lemma ViewShows(m: Mirror)
    ensures Shows(Text(m), Live(m), View(m))
  {
    LiveIdsInText(m.order, Text(m));
  }

  lemma DiffShows(m: Mirror, lines: seq<string>)
    ensures var w := DiffWindow(m, lines); Shows(Text(m), w.front, w.newFront) && Shows(Text(m), w.back, w.newBack)
  {
    ViewShows(m);
    KeptEndsShow(Text(m), Live(m), View(m), lines, KeptOf(View(m), lines));
  }

  lemma LiveApart(m: Mirror, supply: seq<LineId>)
    requires Distinct(m.order) && forall id <- supply :: id !in m.order
    ensures Distinct(Live(m)) && Disjoint(Live(m), supply)
  {
    LiveDistinct(m.order, Text(m));
    LiveIdsInText(m.order, Text(m));
  }

  lemma DiffFits(m: Mirror, lines: seq<string>, supply: seq<LineId>)
    requires Distinct(m.order) && Supplied(m, supply, |lines|)
    ensures Fits(DiffWindow(m, lines), Text(m), supply)
  {
    WindowIds(m, DiffWindow(m, lines));
    DiffShows(m, lines);
    LiveApart(m, supply);
  }

  // The list and the text that the script leaves.
  lemma FinalLive(m: Mirror, w: Window, supply: seq<LineId>)
    requires Fits(w, Text(m), supply) && Disjoint(m.order, supply) && Distinct(m.order)
    requires Live(m) == w.front + w.reused + w.dropped + w.back
    ensures var order := InsertAt(m.order, PlaceAfter(m.order, Last(w.front + w.reused)), supply[..|w.added|]);
            LiveIds(order, FinalText(Text(m), w, supply)) == FinalIds(w, supply) && Distinct(order)
  {
    var pos := PlaceAfter(m.order, Last(w.front + w.reused));
    if w.added == [] {
      assert InsertAt(m.order, pos, supply[..0]) == m.order;
      LiveAfterDeletes(m.order, Text(m), w, supply);
    } else {
      LiveAfterInserts(m.order, Text(m), w, supply);
    }
    assert forall id <- supply[..|w.added|] :: id in supply;
    DistinctInsert(m.order, pos, supply[..|w.added|]);
  }

  lemma ViewOf(m: Mirror, lines: seq<string>)
    requires Shows(Text(m), Live(m), lines)
    ensures View(m) == lines
  {
  }

  lemma ScriptReaches(m: Mirror, w: Window, stamp: Stamp, supply: seq<LineId>)
    requires Fits(w, Text(m), supply) && Disjoint(m.order, supply) && Distinct(m.order)
    requires Live(m) == w.front + w.reused + w.dropped + w.back
    requires forall id <- w.reused :: id in m.lines && id in Text(m)
    requires forall id <- w.dropped :: id in m.lines
    ensures var r := AppliedAll(m, ScriptOf(m, w, stamp, supply));
            View(r) == w.newFront + w.rewritten + w.added + w.newBack && Live(r) == FinalIds(w, supply) && Distinct(r.order)
  {
    var ops := ScriptOf(m, w, stamp, supply);
    FitsParts(w, Text(m), supply);
    ScriptEffect(m, w, stamp, supply);
    AllEffects(m, ops);
    FinalLive(m, w, supply);
    FinalShows(Text(m), w, supply);
    ViewOf(AppliedAll(m, ops), w.newFront + w.rewritten + w.added + w.newBack);
  }

  /** The edit script for any body leaves exactly that body's lines live, whatever tombstones lie between, and keeps every line it can. */
  lemma DiffReachesBody(m: Mirror, lines: seq<string>, stamp: Stamp, supply: seq<LineId>)
    requires Distinct(m.order) && Supplied(m, supply, |lines|)
    ensures View(AppliedAll(m, DiffOps(m, lines, stamp, supply))) == lines
    ensures Live(AppliedAll(m, DiffOps(m, lines, stamp, supply))) == FinalIds(DiffWindow(m, lines), supply)
    ensures Distinct(AppliedAll(m, DiffOps(m, lines, stamp, supply)).order)
  {
    var w := DiffWindow(m, lines);
    DiffFits(m, lines, supply);
    WindowIds(m, w);
    ScriptReaches(m, w, stamp, supply);
  }

  /** No operation is emitted exactly when the live lines are these lines already; so a second diff of the same body emits none. */
  lemma NoOpsIffUnchanged(m: Mirror, lines: seq<string>, stamp: Stamp, supply: seq<LineId>)
    requires Distinct(m.order) && Supplied(m, supply, |lines|)
    ensures DiffOps(m, lines, stamp, supply) == [] <==> View(m) == lines
  {
    if View(m) == lines {
      var w := DiffWindow(m, lines);
      assert w.reused == [] && w.dropped == [] && w.added == [];
    } else {
      DiffReachesBody(m, lines, stamp, supply);
    }
  }
}
