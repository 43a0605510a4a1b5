/** The arbiter of one pair of bodies: the contacts between them, kept
    across frames, and the solver passes over those contacts. */
module Arbiters {
  import opened Vectors
  import opened Bodies
  import opened Contacts
  import opened Persistence
  import opened Solver

  /** The maximum number of points of contact between two bodies. */
  const MAX_POINTS: nat := 2

  /** The canonical order of a pair of bodies: lower identity hash first,
      the second argument first when the hashes tie. */
  function Canonical(b1: Body, b2: Body): (p: (Body, Body))
    ensures p.0.hash <= p.1.hash
    ensures (p.0 == b1 && p.1 == b2) || (p.0 == b2 && p.1 == b1)
    ensures b1.hash != b2.hash ==> p.0.hash < p.1.hash
  {
    if b1.hash < b2.hash then (b1, b2) else (b2, b1)
  }

  /** Bodies with different hashes give the same ordered pair whatever
      the order they are discovered in. */
  lemma CanonicalSymmetric(b1: Body, b2: Body)
    requires b1.hash != b2.hash
    ensures Canonical(b1, b2) == Canonical(b2, b1)
  {
  }

  /** The motions of two bodies, as the solver sees them. */
  function MotionsOf(b1: Body, b2: Body): Velocities
    reads b1, b2
  {
    Velocities(b1.CurrentMotion(), b2.CurrentMotion())
  }

  lemma PushedAsAdjusted(m: Motion, s: Inertia, r: Vec, p: Vec)
    ensures Pushed(m, s, r, Neg(p)) ==
            Motion(Add(m.velocity, Scale(p, -s.invMass)), m.angularVelocity + -s.invI * Cross(r, p))
    ensures Pushed(m, s, r, Neg(p)) ==
            Motion(Add(m.velocity, Scale(p, -s.invMass)), m.angularVelocity + -(s.invI * Cross(r, p)))
  {
    assert Cross(r, Neg(p)) == -Cross(r, p);
    assert s.invI * -Cross(r, p) == -s.invI * Cross(r, p) == -(s.invI * Cross(r, p));
    assert -p.x * s.invMass == p.x * -s.invMass;
    assert -p.y * s.invMass == p.y * -s.invMass;
  }

  class Arbiter {
    /** The contact slots; only the first numContacts are live. */
    const contacts: array<Contact>
    var numContacts: nat
    const body1: Body
    const body2: Body
    /** The combined friction of the two bodies. */
    var friction: real

    ghost predicate Valid()
      reads this
    {
      contacts.Length == MAX_POINTS && numContacts <= MAX_POINTS && body1.hash <= body2.hash
    }

    /** A new arbiter for the pair: canonical body order, two fresh
        contact slots, no live contacts. */
    constructor (b1: Body, b2: Body)
      ensures Valid() && fresh(contacts)
      ensures (body1, body2) == Canonical(b1, b2)
      ensures contacts[..] == [NewContact(), NewContact()]
      ensures numContacts == 0 && friction == 0.0
    {
      contacts := new Contact[MAX_POINTS](_ => NewContact());
      if b1.hash < b2.hash {
        body1 := b1;
        body2 := b2;
      } else {
        body1 := b2;
        body2 := b1;
      }
      numContacts := 0;
      friction := 0.0;
    }

    /** The narrow phase for this pair: it reports the contacts `found`,
        which are written into the first slots. */
    method Collide(found: seq<Contact>)
      requires Valid() && |found| <= MAX_POINTS
      modifies this`numContacts, contacts
      ensures Valid()
      ensures numContacts == |found|
      ensures contacts[..|found|] == found
      ensures contacts[|found|..] == old(contacts[|found|..])
    {
      for i := 0 to |found|
        invariant contacts[..i] == found[..i]
        invariant contacts[i..] == old(contacts[i..])
      {
        contacts[i] := found[i];
      }
      numContacts := |found|;
    }

    /** The combined friction is the geometric mean of the bodies'
        frictions, set only once there are contacts. `root` stands for
        the square root of the product of the two frictions. */
    method Init(root: real)
      requires Valid()
      requires numContacts > 0 ==> 0.0 <= root && root * root == body1.friction * body2.friction
      modifies this`friction
      ensures Valid()
      ensures numContacts > 0 ==> friction * friction == body1.friction * body2.friction && 0.0 <= friction
      ensures numContacts == 0 ==> friction == old(friction)
    {
      if numContacts > 0 {
        friction := root;
      }
    }

    /** The slot of the first live contact whose feature is `f`, or -1. */
    method MatchingSlot(f: FeaturePair) returns (k: int)
      requires Valid()
      ensures -1 <= k < numContacts
      ensures k == MatchIndex(contacts[..numContacts], f)
    {
      ghost var live := contacts[..numContacts];
      k := -1;
      var j := 0;
      while j < numContacts
        invariant 0 <= j <= numContacts
        invariant forall q :: 0 <= q < j ==> live[q].feature != f
      {
        if f == contacts[j].feature {
          k := j;
          break;
        }
        j := j + 1;
      }
    }

    /** The contacts of `newContacts` below `numNewContacts`, each merged
        with the first live contact of the same feature, in a new array. */
    method MergeContacts(newContacts: array<Contact>, numNewContacts: nat) returns (merged: array<Contact>)
      requires Valid()
      requires numNewContacts <= MAX_POINTS && numNewContacts <= newContacts.Length
      ensures fresh(merged) && merged.Length == MAX_POINTS
      ensures forall i :: 0 <= i < numNewContacts ==>
                merged[i] == WarmStarted(contacts[..numContacts], newContacts[i])
      ensures forall i :: 0 <= i < numNewContacts ==> SameGeometry(merged[i], newContacts[i])
    {
      merged := new Contact[MAX_POINTS](_ => NewContact());
      ghost var live := contacts[..numContacts];

      for i := 0 to numNewContacts
        invariant forall m :: 0 <= m < i ==> merged[m] == WarmStarted(live, newContacts[m])
      {
        var cNew := newContacts[i];
        var k := MatchingSlot(cNew.feature);
        if k > -1 {
          var cOld := contacts[k];
          merged[i] := cNew.(accumulatedNormalImpulse := cOld.accumulatedNormalImpulse,
                             accumulatedTangentImpulse := cOld.accumulatedTangentImpulse);
        } else {
          merged[i] := cNew;
        }
      }
    }

    /** Replaces the live contacts by the first numNewContacts of
        `newContacts`, each inheriting the accumulated impulses of the
        first live contact with the same feature. Slots beyond the new
        count are left as they were. */
    method Update(newContacts: array<Contact>, numNewContacts: nat)
      requires Valid()
      requires numNewContacts <= MAX_POINTS && numNewContacts <= newContacts.Length
      modifies this`numContacts, contacts
      ensures Valid()
      ensures numContacts == numNewContacts
      ensures forall i :: 0 <= i < numNewContacts ==>
                contacts[i] == WarmStarted(old(contacts[..numContacts]), old(newContacts[i]))
      ensures forall i :: 0 <= i < numNewContacts ==> SameGeometry(contacts[i], old(newContacts[i]))
      ensures forall i :: numNewContacts <= i < MAX_POINTS ==> contacts[i] == old(contacts[i])
    {
      var mergedContacts := MergeContacts(newContacts, numNewContacts);
      ghost var merged := mergedContacts[..];
      for i := 0 to numNewContacts
        invariant mergedContacts[..] == merged
        invariant forall m :: 0 <= m < i ==> contacts[m] == merged[m]
        invariant forall m :: i <= m < MAX_POINTS ==> contacts[m] == old(contacts[m])
      {
        contacts[i] := mergedContacts[i];
      }
      numContacts := numNewContacts;
    }

    /** Applies `impulse` at arm `r2` to the second body and its opposite
        at arm `r1` to the first body. */
    method Exchange(r1: Vec, r2: Vec, impulse: Vec)
      requires body1 != body2
      modifies body1`velocity, body1`angularVelocity, body2`velocity, body2`angularVelocity
      ensures MotionsOf(body1, body2) ==
              Solver.Exchange(old(MotionsOf(body1, body2)), body1.Inertial(), body2.Inertial(), r1, r2, impulse)
    {
      ghost var before := body1.CurrentMotion();
      body1.AdjustVelocity(Scale(impulse, -body1.invMass));
      body1.AdjustAngularVelocity(-body1.invI * Cross(r1, impulse));
      body2.AdjustVelocity(Scale(impulse, body2.invMass));
      body2.AdjustAngularVelocity(body2.invI * Cross(r2, impulse));
      PushedAsAdjusted(before, body1.Inertial(), r1, impulse);
    }

    /** The pre-step of slot `i`: its effective masses and bias, then its
        accumulated impulses, scaled by the bodies' hardness, applied to
        the bodies. */
    method PreStepContact(i: nat, invDT: real)
      requires Valid() && body1 != body2 && i < numContacts
      requires Solvable(contacts[i], body1.Inertial(), body2.Inertial())
      modifies contacts, body1`velocity, body1`angularVelocity, body2`velocity, body2`angularVelocity
      ensures Valid()
      ensures var s1, s2 := body1.Inertial(), body2.Inertial();
              var c := Prepared(old(contacts[i]), s1, s2, invDT);
              contacts[i] == c &&
              MotionsOf(body1, body2) ==
                Solver.Exchange(old(MotionsOf(body1, body2)), s1, s2, Arm(c, s1), Arm(c, s2),
                                WarmImpulse(c, body1.hardness + body2.hardness))
      ensures forall m :: 0 <= m < MAX_POINTS && m != i ==> contacts[m] == old(contacts[m])
    {
      var s1 := body1.Inertial();
      var s2 := body2.Inertial();
      var c := Prepared(contacts[i], s1, s2, invDT);
      contacts[i] := c;
      Exchange(Arm(c, s1), Arm(c, s2), WarmImpulse(c, body1.hardness + body2.hardness));
    }

    /** Computes every live contact's effective masses and bias and
        applies its accumulated impulses to the bodies (warm start). */
    method PreStep(invDT: real)
      requires Valid() && body1 != body2
      requires AllSolvable(contacts[..numContacts], body1.Inertial(), body2.Inertial())
      modifies contacts, body1`velocity, body1`angularVelocity, body2`velocity, body2`angularVelocity
      ensures Valid()
      ensures var o := PreStepAll(old(contacts[..numContacts]), old(MotionsOf(body1, body2)),
                                  body1.Inertial(), body2.Inertial(), body1.hardness + body2.hardness, invDT);
              contacts[..numContacts] == o.contacts && MotionsOf(body1, body2) == o.velocities
      ensures forall m :: numContacts <= m < MAX_POINTS ==> contacts[m] == old(contacts[m])
    {
      ghost var cs := contacts[..numContacts];
      ghost var vs := MotionsOf(body1, body2);
      ghost var s1 := body1.Inertial();
      ghost var s2 := body2.Inertial();
      ghost var hardness := body1.hardness + body2.hardness;

      for i := 0 to numContacts
        invariant PreStepPrefix(cs, i, contacts[..], MotionsOf(body1, body2), vs, s1, s2, hardness, invDT)
        invariant forall m :: numContacts <= m < MAX_POINTS ==> contacts[m] == old(contacts[m])
      {
        ghost var before := contacts[..];
        ghost var w := MotionsOf(body1, body2);
        assert before[i] == cs[i];
        PreStepContact(i, invDT);
        assert body1.Inertial() == s1 && body2.Inertial() == s2;
        PreStepStep(cs, i, before, contacts[..], w, MotionsOf(body1, body2), vs, s1, s2, hardness, invDT);
      }
      assert cs[..numContacts] == cs;
      assert contacts[..numContacts] == contacts[..][..numContacts];
      assert body1.Inertial() == s1 && body2.Inertial() == s2;
    }

    /** The impulse step of slot `i`: first the normal impulse, clamped so
        the accumulated normal impulse stays non-negative, then the friction
        impulse, clamped to the friction cone; each change of an accumulated
        impulse is applied to the bodies as soon as it is known. */
    method ApplyImpulseAt(i: nat)
      requires Valid() && body1 != body2 && i < numContacts
      modifies contacts, body1`velocity, body1`angularVelocity, body2`velocity, body2`angularVelocity
      ensures Valid()
      ensures var r := ApplyContact(old(contacts[i]), old(MotionsOf(body1, body2)),
                                    body1.Inertial(), body2.Inertial(), friction);
              contacts[i] == r.contact && MotionsOf(body1, body2) == r.velocities
      ensures forall m :: 0 <= m < MAX_POINTS && m != i ==> contacts[m] == old(contacts[m])
    {
      var s1 := body1.Inertial();
      var s2 := body2.Inertial();
      var c := contacts[i];
      var n := NormalStep(c, MotionsOf(body1, body2), s1, s2);
      contacts[i] := n.contact;
      Exchange(Arm(c, s1), Arm(c, s2),
               Scale(c.normal, n.contact.accumulatedNormalImpulse - c.accumulatedNormalImpulse));
      var d := contacts[i];
      var f := FrictionStep(d, MotionsOf(body1, body2), s1, s2, friction);
      contacts[i] := f.contact;
      Exchange(Arm(d, s1), Arm(d, s2),
               Scale(Tangent(d), f.contact.accumulatedTangentImpulse - d.accumulatedTangentImpulse));
    }

    /** One sequential-impulse pass over the live contacts, in slot order. */
    method ApplyImpulse()
      requires Valid() && body1 != body2
      modifies contacts, body1`velocity, body1`angularVelocity, body2`velocity, body2`angularVelocity
      ensures Valid()
      ensures var o := ApplyAll(old(contacts[..numContacts]), old(MotionsOf(body1, body2)),
                                body1.Inertial(), body2.Inertial(), friction);
              contacts[..numContacts] == o.contacts && MotionsOf(body1, body2) == o.velocities
      ensures forall m :: numContacts <= m < MAX_POINTS ==> contacts[m] == old(contacts[m])
    {
      ghost var cs := contacts[..numContacts];
      ghost var vs := MotionsOf(body1, body2);
      ghost var s1 := body1.Inertial();
      ghost var s2 := body2.Inertial();

      for i := 0 to numContacts
        invariant ApplyPrefix(cs, i, contacts[..], MotionsOf(body1, body2), vs, s1, s2, friction)
        invariant forall m :: numContacts <= m < MAX_POINTS ==> contacts[m] == old(contacts[m])
      {
        ghost var before := contacts[..];
        ghost var w := MotionsOf(body1, body2);
        ApplyImpulseAt(i);
        assert body1.Inertial() == s1 && body2.Inertial() == s2;
        ApplyStep(cs, i, before, contacts[..], w, MotionsOf(body1, body2), vs, s1, s2, friction);
      }
      assert cs[..numContacts] == cs;
      assert contacts[..numContacts] == contacts[..][..numContacts];
    }

    /** The hash code of the pair: the sum of the bodies' hash codes,
        with Java's 32-bit wrap-around. */
    function HashCode(): (h: Int32)
      ensures (h - (body1.hash + body2.hash)) % TWO_TO_32 == 0
      ensures -TWO_TO_31 <= body1.hash + body2.hash < TWO_TO_31 ==> h == body1.hash + body2.hash
    {
      Wrap32(body1.hash + body2.hash)
    }

    /** Arbiter equality as the engine defines it: the same first body and
        the same second body. */
    predicate Equals(other: Arbiter): (r: bool)
      ensures r ==> SamePair(other) && HashCode() == other.HashCode()
    {
      other.body1 == body1 && other.body2 == body2
    }

    /** Equality of the unordered pairs of bodies. */
    predicate SamePair(other: Arbiter) {
      {body1, body2} == {other.body1, other.body2}
    }
  }

  /** Arbiters built for the same two bodies in either order report the
      same hash code, the wrapped sum of the bodies' hash codes. */
  lemma HashCodeSymmetric(x: Arbiter, y: Arbiter, a: Body, b: Body)
    requires (x.body1, x.body2) == Canonical(a, b)
    requires (y.body1, y.body2) == Canonical(b, a)
    ensures x.HashCode() == y.HashCode() == Wrap32(a.hash + b.hash)
  {
  }

  /** When the two bodies' hash codes differ, arbiters built for them in
      either order are equal. */
  lemma EqualsSymmetric(x: Arbiter, y: Arbiter, a: Body, b: Body)
    requires a.hash != b.hash
    requires (x.body1, x.body2) == Canonical(a, b)
    requires (y.body1, y.body2) == Canonical(b, a)
    ensures x.Equals(y) && y.Equals(x)
  {
    CanonicalSymmetric(a, b);
  }

  /** Two distinct bodies with the same hash code give arbiters that are
      not equal when the bodies are discovered in opposite orders. */
  lemma EqualsBrokenByHashCollision(x: Arbiter, y: Arbiter, a: Body, b: Body)
    requires a != b && a.hash == b.hash
    requires (x.body1, x.body2) == Canonical(a, b)
    requires (y.body1, y.body2) == Canonical(b, a)
    ensures !x.Equals(y) && !y.Equals(x)
  {
  }

  /** A concrete pair of bodies with colliding hash codes: the arbiters
      built in the two discovery orders are unequal under Equals but
      describe the same pair. */
  method CollidingHashes() returns (x: Arbiter, y: Arbiter)
    ensures x.body1 == y.body2 && x.body2 == y.body1 && x.body1 != x.body2
    ensures !x.Equals(y) && x.SamePair(y)
  {
    var a := new Body(7, ZERO, 1.0, 1.0, 0.5, 1.0);
    var b := new Body(7, Vec(1.0, 0.0), 1.0, 1.0, 0.5, 1.0);
    x := new Arbiter(a, b);
    y := new Arbiter(b, a);
  }

  /** Arbiters built for the same two bodies in either order describe the
      same pair, whatever their hash codes. */
  lemma SamePairSymmetric(x: Arbiter, y: Arbiter, a: Body, b: Body)
    requires (x.body1, x.body2) == Canonical(a, b)
    requires (y.body1, y.body2) == Canonical(b, a)
    ensures x.SamePair(y) && y.SamePair(x)
    ensures x.HashCode() == y.HashCode()
  {
  }

  /** Pair equality agrees with Equals whenever the bodies' hash codes
      differ, and is implied by Equals always. */
  lemma SamePairMatchesEquals(x: Arbiter, y: Arbiter)
    requires x.Valid() && y.Valid()
    ensures x.Equals(y) ==> x.SamePair(y)
    ensures x.body1.hash != x.body2.hash ==> (x.SamePair(y) <==> x.Equals(y))
  {
    if x.body1.hash != x.body2.hash && x.SamePair(y) {
      assert x.body1 in {y.body1, y.body2};
      assert x.body2 in {y.body1, y.body2};
    }
  }
}
