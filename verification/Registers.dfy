/**
 Last-writer registers: every notebook, tag, association and resource, and every row of the
 database backend, keeps one version and lets `Resolve` decide whether an incoming one replaces it.
 */
module Registers {
  import opened Wrappers
  import opened VersionVectors
  import opened NoteLog

  datatype Version<P> = Version(vv: Vector, time: Time, writer: Device, payload: P)

  datatype Winner = Local | Incoming

  // The tiebreak on (timestamp, device).
  predicate KeyAbove<P>(a: Version<P>, b: Version<P>) {
    a.time > b.time || (a.time == b.time && a.writer > b.writer)
  }

  function Resolve<P>(local: Version<P>, incoming: Version<P>): Winner {
    var incomingDominates, localDominates := Dominates(incoming.vv, local.vv), Dominates(local.vv, incoming.vv);
    if incomingDominates && !localDominates then Incoming
    else if localDominates then Local
    else if KeyAbove(incoming, local) then Incoming
    else Local
  }

  // a, arriving, replaces b.
  predicate Beats<P>(a: Version<P>, b: Version<P>) {
    Resolve(b, a) == Incoming
  }

  /** Strict domination decides, whatever the clocks say; equal vectors change nothing; and concurrent versions go by (timestamp, device). */
  lemma ResolveIff<P>(a: Version<P>, b: Version<P>)
    ensures Dominates(a.vv, b.vv) && !Dominates(b.vv, a.vv) ==> Beats(a, b) && !Beats(b, a)
    ensures Dominates(a.vv, b.vv) && Dominates(b.vv, a.vv) ==> !Beats(a, b) && !Beats(b, a)
    ensures !Dominates(a.vv, b.vv) && !Dominates(b.vv, a.vv) ==>
              (Beats(a, b) <==> a.time > b.time || (a.time == b.time && a.writer > b.writer))
  {
  }

  function Deliver<P>(register: Option<Version<P>>, v: Version<P>): Option<Version<P>> {
    if register.None? || Beats(v, register.value) then Some(v) else register
  }

  // The register after a sequence of deliveries to an empty one.
  function Fold<P>(deliveries: seq<Version<P>>): Option<Version<P>> {
    if deliveries == [] then None
    else Deliver(Fold(deliveries[..|deliveries| - 1]), deliveries[|deliveries| - 1])
  }

  // A local edit: the register's own vector, bumped.
  function LocalWrite<P>(register: Option<Version<P>>, d: Device, now: Time, payload: P): Version<P> {
    Version(Increment(if register.Some? then register.value.vv else map[], d), now, d, payload)
  }

  // ---- When is the register independent of the order of delivery? ----

  ghost predicate Within<P(!new)>(deliveries: seq<Version<P>>, vs: set<Version<P>>) {
    forall v <- deliveries :: v in vs
  }

  ghost predicate SameDelivered<P(!new)>(a: seq<Version<P>>, b: seq<Version<P>>) {
    (forall v <- a :: v in b) && (forall v <- b :: v in a)
  }

  // Any order and any repetition of the same versions ends in the same register.
  ghost predicate OrderFree<P(!new)>(vs: set<Version<P>>) {
    forall a: seq<Version<P>>, b: seq<Version<P>> :: Within(a, vs) && SameDelivered(a, b) ==> Fold(a) == Fold(b)
  }

  // Of two versions one replaces the other.
  ghost predicate Decisive<P(!new)>(vs: set<Version<P>>) {
    forall a <- vs, b <- vs :: a != b ==> Beats(a, b) || Beats(b, a)
  }

  ghost predicate NoCycle<P(!new)>(vs: set<Version<P>>) {
    forall a <- vs, b <- vs, c <- vs :: !(Beats(a, b) && Beats(b, c) && Beats(c, a))
  }

  lemma BeatsAsymmetric<P>(a: Version<P>, b: Version<P>)
    ensures !(Beats(a, b) && Beats(b, a))
  {}

  ghost predicate IsTop<P>(deliveries: seq<Version<P>>, top: Version<P>) {
    top in deliveries && forall v <- deliveries :: v == top || Beats(top, v)
  }

  /** On versions that are ranked, the register is the one version that beats all others delivered. */
  lemma {:induction false} FoldIsTop<P(!new)>(deliveries: seq<Version<P>>, vs: set<Version<P>>)
    requires deliveries != [] && Within(deliveries, vs) && Decisive(vs) && NoCycle(vs)
    ensures Fold(deliveries).Some? && IsTop(deliveries, Fold(deliveries).value)
  {
    var n := |deliveries| - 1;
    var c := deliveries[n];
    assert deliveries == deliveries[..n] + [c];
    if n > 0 {
      FoldIsTop(deliveries[..n], vs);
      var top := Fold(deliveries[..n]).value;
      if Beats(c, top) {
        forall v <- deliveries ensures v == c || Beats(c, v) {
          if v != c {
            assert v == top || Beats(top, v);
            assert !(Beats(v, c) && Beats(c, top) && Beats(top, v));
          }
        }
      } else {
        forall v <- deliveries ensures v == top || Beats(top, v) {}
      }
    } else {
      assert deliveries[..0] == [];
    }
  }

  lemma FoldThree<P(!new)>(a: Version<P>, b: Version<P>, c: Version<P>)
    ensures Fold([a, b]) == Deliver(Some(a), b)
    ensures Fold([a, b, c]) == Deliver(Deliver(Some(a), b), c)
  {
    assert [a][..0] == [];
    assert Fold([a]) == Some(a);
    assert [a, b][..1] == [a];
    assert [a, b, c][..2] == [a, b];
  }

  /** Delivery order never matters exactly when every pair is decided and no three versions beat each other in a circle. */
  lemma OrderFreeIff<P(!new)>(vs: set<Version<P>>)
    ensures OrderFree(vs) <==> Decisive(vs) && NoCycle(vs)
  {
    if !Decisive(vs) {
      var a, b :| a in vs && b in vs && a != b && !Beats(a, b) && !Beats(b, a);
      FoldThree(a, b, a);
      FoldThree(b, a, b);
      assert Within([a, b], vs) && SameDelivered([a, b], [b, a]);
      assert Fold([a, b]) != Fold([b, a]);
    } else if !NoCycle(vs) {
      var a, b, c :| a in vs && b in vs && c in vs && Beats(a, b) && Beats(b, c) && Beats(c, a);
      BeatsAsymmetric(a, b);
      BeatsAsymmetric(b, c);
      BeatsAsymmetric(c, a);
      FoldThree(a, b, c);
      FoldThree(b, c, a);
      assert Within([a, b, c], vs) && SameDelivered([a, b, c], [b, c, a]);
      assert Fold([a, b, c]) != Fold([b, c, a]);
    } else {
      forall a: seq<Version<P>>, b: seq<Version<P>> | Within(a, vs) && SameDelivered(a, b) ensures Fold(a) == Fold(b) {
        assert b != [] ==> b[0] in b;
        if a != [] {
          assert a[0] in b;
          assert Within(b, vs);
          FoldIsTop(a, vs);
          FoldIsTop(b, vs);
          BeatsAsymmetric(Fold(a).value, Fold(b).value);
        }
      }
    }
  }

  // ---- The hypotheses under which versions are ranked ----

  // Clocks follow causality: a version that has seen another carries a later (timestamp, device).
  ghost predicate ClocksFollowCausality<P(!new)>(vs: set<Version<P>>) {
    forall a <- vs, b <- vs :: Dominates(a.vv, b.vv) && !Dominates(b.vv, a.vv) ==> KeyAbove(a, b)
  }

  // Equal vectors are the same version.
  ghost predicate VectorsIdentify<P(!new)>(vs: set<Version<P>>) {
    forall a <- vs, b <- vs :: Dominates(a.vv, b.vv) && Dominates(b.vv, a.vv) ==> a == b
  }

  // No device stamps two versions alike.
  ghost predicate StampsDiffer<P(!new)>(vs: set<Version<P>>) {
    forall a <- vs, b <- vs :: a.time == b.time && a.writer == b.writer ==> a == b
  }

  // The versions that were delivered.
  ghost function Delivered<P(!new)>(deliveries: seq<Version<P>>): set<Version<P>> {
    set v <- deliveries :: v
  }

  ghost predicate Honest<P(!new)>(vs: set<Version<P>>) {
    ClocksFollowCausality(vs) && VectorsIdentify(vs) && StampsDiffer(vs)
  }

  /** Under the three hypotheses `Resolve` is comparison of (timestamp, device), so delivery order never matters. */
  lemma HonestVersionsConverge<P(!new)>(vs: set<Version<P>>)
    requires Honest(vs)
    ensures forall a <- vs, b <- vs :: a != b ==> (Beats(a, b) <==> KeyAbove(a, b))
    ensures OrderFree(vs)
  {
    forall a <- vs, b <- vs | a != b ensures Beats(a, b) <==> KeyAbove(a, b) {}
    OrderFreeIff(vs);
  }

  // What beats a version also beats what that one beats.
  ghost predicate Transitive<P(!new)>(vs: set<Version<P>>) {
    forall a <- vs, b <- vs, c <- vs :: Beats(a, b) && Beats(b, c) ==> Beats(a, c)
  }

  // When one of two versions always replaces the other, circles are all that can be in the way.
  lemma TransitiveIffNoCycle<P(!new)>(vs: set<Version<P>>)
    requires Decisive(vs)
    ensures Transitive(vs) <==> NoCycle(vs)
  {
    forall a <- vs, b <- vs ensures !(Beats(a, b) && Beats(b, a)) {
      BeatsAsymmetric(a, b);
    }
  }

  ghost predicate NothingBeatsRegister<P(!new)>(deliveries: seq<Version<P>>) {
    Fold(deliveries).Some? ==> forall v <- deliveries :: !Beats(v, Fold(deliveries).value)
  }

  /** No stale resurrection, over whole runs: on versions ranked so, none that was delivered, before or after, beats the one in the register. */
  lemma {:induction false} BeatenStaysBeaten<P(!new)>(vs: set<Version<P>>, deliveries: seq<Version<P>>)
    requires Transitive(vs) && Within(deliveries, vs)
    ensures NothingBeatsRegister(deliveries)
    ensures Fold(deliveries).Some? ==> Fold(deliveries).value in vs
  {
    if deliveries != [] {
      var front, c := deliveries[..|deliveries| - 1], deliveries[|deliveries| - 1];
      assert deliveries == front + [c];
      BeatenStaysBeaten(vs, front);
      BeatsAsymmetric(c, c);
    }
  }

  /**
   A version that was beaten (an edit that a delivered delete dominates, or a delete that a delivered edit
   dominates) can never come back, in any order of deliveries and with any repetition, exactly if what
   beats a version also beats what that one beats.
   */
  lemma NeverResurrectsIff<P(!new)>(vs: set<Version<P>>)
    ensures (forall deliveries: seq<Version<P>> :: Within(deliveries, vs) ==> NothingBeatsRegister(deliveries)) <==> Transitive(vs)
  {
    if Transitive(vs) {
      forall deliveries: seq<Version<P>> | Within(deliveries, vs) ensures NothingBeatsRegister(deliveries) {
        BeatenStaysBeaten(vs, deliveries);
      }
    } else {
      var a, b, c :| a in vs && b in vs && c in vs && Beats(a, b) && Beats(b, c) && !Beats(a, c);
      FoldThree(c, a, b);
      assert Within([c, a, b], vs) && [c, a, b][1] == a;
      assert !NothingBeatsRegister([c, a, b]);
    }
  }

  /** Each delivery moves the register up in one total order or leaves it. */
  lemma RegisterIsMonotone<P(!new)>(vs: set<Version<P>>, earlier: seq<Version<P>>, later: seq<Version<P>>)
    requires Honest(vs) && earlier != [] && Within(earlier + later, vs)
    ensures Fold(earlier).Some? && Fold(earlier + later).Some?
    ensures Fold(earlier + later) == Fold(earlier) || KeyAbove(Fold(earlier + later).value, Fold(earlier).value)
  {
    HonestVersionsConverge(vs);
    OrderFreeIff(vs);
    forall v <- earlier ensures v in earlier + later {}
    FoldIsTop(earlier, vs);
    FoldIsTop(earlier + later, vs);
  }

  /** A local edit always replaces the register it starts from. */
  lemma LocalWriteWins<P>(register: Option<Version<P>>, d: Device, now: Time, payload: P)
    ensures var v := LocalWrite(register, d, now, payload); Deliver(register, v) == Some(v)
  {
    if register.Some? {
      IncrementStrictlyDominates(register.value.vv, d);
    }
  }

  // ---- What goes wrong without them ----

  lemma NotSeen(a: Vector, b: Vector, k: Device)
    requires Counter(b, k) > Counter(a, k)
    ensures !Dominates(a, b)
  {
    assert k in b;
  }

  predicate Concurrent<P>(a: Version<P>, b: Version<P>) {
    !Dominates(a.vv, b.vv) && !Dominates(b.vv, a.vv)
  }

  /**
   Without clocks that follow causality: a delete has seen an edit, yet the edit comes back, because
   a third version concurrent with both beats the delete and loses to the edit.
   */
  lemma SkewedClockResurrects() returns (edit: Version<string>, delete: Version<string>, other: Version<string>)
    ensures Dominates(delete.vv, edit.vv) && !Dominates(edit.vv, delete.vv)
    ensures Concurrent(other, edit) && Concurrent(other, delete)
    ensures edit.time != delete.time && edit.time != other.time && delete.time != other.time
    ensures Fold([edit, delete]) == Some(delete) && Fold([edit, delete, other, edit]) == Some(edit)
  {
    edit := Version(map[1 := 1], 30, 1, "edit");
    delete := Version(map[1 := 1, 2 := 1], 10, 2, "delete");
    other := Version(map[3 := 1], 20, 3, "other");
    NotSeen(edit.vv, delete.vv, 2);
    NotSeen(edit.vv, other.vv, 3);
    NotSeen(delete.vv, other.vv, 3);
    NotSeen(other.vv, edit.vv, 1);
    NotSeen(other.vv, delete.vv, 1);
    assert Dominates(delete.vv, edit.vv);
    CircleResurrects(edit, delete, other);
  }

  lemma CircleResurrects<P(!new)>(edit: Version<P>, delete: Version<P>, other: Version<P>)
    requires Beats(delete, edit) && Beats(other, delete) && Beats(edit, other)
    ensures Fold([edit, delete]) == Some(delete) && Fold([edit, delete, other, edit]) == Some(edit)
  {
    FoldThree(edit, delete, other);
    assert [edit, delete, other, edit][..3] == [edit, delete, other];
  }

  // Three devices (a = 1, b = 2, c = 3), each always bumping the register it holds.
  ghost predicate DivergentRun(z: Version<string>, q: Version<string>, r: Version<string>, s: Version<string>,
                               atB: Version<string>, atA: Version<string>) {
    && z == LocalWrite(None, 3, 1, "z")                     // c writes
    && q == LocalWrite(None, 2, 2, "q")                     // b writes, not having seen z
    && r == LocalWrite(Deliver(None, z), 1, 3, "r")         // a receives z, writes
    && s == LocalWrite(Deliver(Some(z), q), 3, 4, "s")      // c receives q, writes
    && atB == LocalWrite(Deliver(Some(q), r), 2, 5, "b")    // b receives r, writes
    && atA == LocalWrite(Deliver(Some(r), s), 1, 6, "a")    // a receives s, writes
  }

  lemma DivergentVectors()
    returns (z: Version<string>, q: Version<string>, r: Version<string>, s: Version<string>, atB: Version<string>, atA: Version<string>)
    ensures DivergentRun(z, q, r, s, atB, atA)
    ensures z.vv == map[3 := 1] && q.vv == map[2 := 1] && r.vv == map[3 := 1, 1 := 1] && s.vv == map[2 := 1, 3 := 1]
    ensures atB.vv == map[3 := 1, 1 := 1, 2 := 1] && atA.vv == atB.vv
  {
    z := LocalWrite(None, 3, 1, "z");
    q := LocalWrite(None, 2, 2, "q");
    r := LocalWrite(Deliver(None, z), 1, 3, "r");
    NotSeen(z.vv, q.vv, 2);
    NotSeen(q.vv, z.vv, 3);
    s := LocalWrite(Deliver(Some(z), q), 3, 4, "s");
    NotSeen(q.vv, r.vv, 1);
    NotSeen(r.vv, q.vv, 2);
    atB := LocalWrite(Deliver(Some(q), r), 2, 5, "b");
    NotSeen(r.vv, s.vv, 2);
    NotSeen(s.vv, r.vv, 1);
    atA := LocalWrite(Deliver(Some(r), s), 1, 6, "a");
    assert atB.vv == map[3 := 1, 1 := 1, 2 := 1];
    assert atA.vv == map[3 := 1, 1 := 1, 2 := 1];
  }

  // u was stamped first, and has not strictly seen v.
  predicate OnTime<P>(u: Version<P>, v: Version<P>) {
    KeyAbove(v, u) && (Dominates(v.vv, u.vv) || !Dominates(u.vv, v.vv))
  }

  /**
   Equal vectors on different writes do arise with every clock running on time, and then the two
   devices holding them ignore each other's version, and every other one, for good.
   */
  lemma HonestClocksCanDiverge()
    returns (z: Version<string>, q: Version<string>, r: Version<string>, s: Version<string>, atB: Version<string>, atA: Version<string>)
    ensures DivergentRun(z, q, r, s, atB, atA) && atA != atB && atA.vv == atB.vv
    ensures OnTime(z, q) && OnTime(z, r) && OnTime(q, r) && OnTime(z, s) && OnTime(q, s) && OnTime(r, s)
    ensures forall v <- {z, q, r, s} :: OnTime(v, atB) && OnTime(v, atA)
    ensures OnTime(atB, atA)
    ensures forall v <- {z, q, r, s, atB} :: Deliver(Some(atA), v) == Some(atA)
    ensures forall v <- {z, q, r, s, atA} :: Deliver(Some(atB), v) == Some(atB)
  {
    z, q, r, s, atB, atA := DivergentVectors();
    NotSeen(z.vv, q.vv, 2);
    NotSeen(q.vv, r.vv, 1);
    NotSeen(r.vv, s.vv, 2);
  }
}
