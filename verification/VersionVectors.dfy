/** Version vectors: one counter per device, an absent device counting as zero. */
module VersionVectors {
  // Device ids are compared by the program only for equality and order, so a device is its rank in that order.
  type Device = nat

  type Vector = map<Device, nat>

  function Counter(v: Vector, d: Device): nat {
    if d in v then v[d] else 0
  }

  function Increment(v: Vector, d: Device): Vector {
    v[d := Counter(v, d) + 1]
  }

  predicate Dominates(a: Vector, b: Vector) {
    forall k <- b :: Counter(a, k) >= b[k]
  }

  function Join(a: Vector, b: Vector): Vector {
    map k | k in a.Keys + b.Keys :: if Counter(a, k) >= Counter(b, k) then Counter(a, k) else Counter(b, k)
  }

  /** The program's loop over the entries of the second vector. */
  method JoinByLoop(a: Vector, b: Vector) returns (out: Vector)
    ensures out == Join(a, b)
  {
    out := a;
    var rest := b.Keys;
    while rest != {}
      invariant rest <= b.Keys
      invariant out.Keys == a.Keys + (b.Keys - rest)
      invariant forall k <- out :: out[k] == if k in rest then Counter(a, k) else Join(a, b)[k]
      decreases rest
    {
      var k :| k in rest;
      var slot := Counter(out, k);
      out := out[k := if slot >= b[k] then slot else b[k]];
      rest := rest - {k};
    }
    assert out.Keys == Join(a, b).Keys;
  }

  // No counter is written down as an explicit zero.
  predicate ZeroFree(v: Vector) {
    forall k <- v :: v[k] > 0
  }

  lemma DominatesEverywhere(a: Vector, b: Vector)
    ensures Dominates(a, b) <==> forall k: Device :: Counter(a, k) >= Counter(b, k)
  {
    if Dominates(a, b) {
      forall k: Device ensures Counter(a, k) >= Counter(b, k) {}
    } else {
      var k :| k in b && !(Counter(a, k) >= b[k]);
      assert Counter(a, k) < Counter(b, k);
    }
  }

  lemma DominatesTransitive(a: Vector, b: Vector, c: Vector)
    requires Dominates(a, b) && Dominates(b, c)
    ensures Dominates(a, c)
  {
    DominatesEverywhere(a, b);
    DominatesEverywhere(b, c);
    DominatesEverywhere(a, c);
  }

  /** Domination orders the zero-free vectors: each one written in a single way. */
  lemma DominatesAntisymmetric(a: Vector, b: Vector)
    requires Dominates(a, b) && Dominates(b, a)
    requires ZeroFree(a) && ZeroFree(b)
    ensures a == b
  {
    DominatesEverywhere(a, b);
    DominatesEverywhere(b, a);
    forall k: Device ensures k in a <==> k in b {
      assert Counter(a, k) == Counter(b, k);
    }
    forall k <- a ensures a[k] == b[k] {
      assert Counter(a, k) == Counter(b, k);
    }
  }

  lemma JoinIsLeastUpperBound(a: Vector, b: Vector, u: Vector)
    ensures Dominates(Join(a, b), a) && Dominates(Join(a, b), b)
    ensures Dominates(u, Join(a, b)) <==> Dominates(u, a) && Dominates(u, b)
  {
    DominatesEverywhere(u, a);
    DominatesEverywhere(u, b);
    DominatesEverywhere(u, Join(a, b));
    forall k: Device ensures Counter(Join(a, b), k) >= Counter(a, k) && Counter(Join(a, b), k) >= Counter(b, k) {}
  }

  lemma IncrementStrictlyDominates(v: Vector, d: Device)
    ensures Dominates(Increment(v, d), v) && !Dominates(v, Increment(v, d))
  {
    assert Increment(v, d)[d] > Counter(v, d);
  }
}
