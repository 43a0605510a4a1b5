/** The sequential-impulse solver of one arbiter, on values: the pre-step
    (effective masses, Baumgarte bias, warm start) and one impulse pass. */
module Solver {
  import opened Vectors
  import opened Bodies
  import opened Contacts

  /** Penetration depth tolerated before the bias pushes the bodies apart. */
  const ALLOWED_PENETRATION: real := 0.01
  /** Fraction of the excess penetration corrected per unit of inverse time step. */
  const BIAS_FACTOR: real := 0.1

  /** The motions of the arbiter's first and second body. */
  datatype Velocities = Velocities(m1: Motion, m2: Motion)

  /** The contacts and the body motions after a pass over the contacts. */
  datatype Outcome = Outcome(contacts: seq<Contact>, velocities: Velocities)

  /** One contact after one impulse step, and the motions after it. */
  datatype Resolved = Resolved(contact: Contact, velocities: Velocities)

  /** The contact point relative to the centre of a body. */
  function Arm(c: Contact, s: Inertia): Vec { Sub(c.position, s.position) }

  /** The contact's tangent: its normal turned a quarter turn. */
  function Tangent(c: Contact): Vec { CrossScalar(1.0, c.normal) }

  /** The combined inverse mass of both bodies along `dir` at arms `r1`, `r2`. */
  function EffectiveInverse(s1: Inertia, s2: Inertia, r1: Vec, r2: Vec, dir: Vec): real {
    var d1 := Dot(r1, dir);
    var d2 := Dot(r2, dir);
    s1.invMass + s2.invMass + s1.invI * (Dot(r1, r1) - d1 * d1) + s2.invI * (Dot(r2, r2) - d2 * d2)
  }

  function KNormal(c: Contact, s1: Inertia, s2: Inertia): real {
    EffectiveInverse(s1, s2, Arm(c, s1), Arm(c, s2), c.normal)
  }

  function KTangent(c: Contact, s1: Inertia, s2: Inertia): real {
    EffectiveInverse(s1, s2, Arm(c, s1), Arm(c, s2), Tangent(c))
  }

  /** Both effective inverse masses can be inverted. */
  predicate Solvable(c: Contact, s1: Inertia, s2: Inertia) {
    KNormal(c, s1, s2) != 0.0 && KTangent(c, s1, s2) != 0.0
  }

  /** The Baumgarte velocity bias for a contact with the given separation. */
  function Bias(separation: real, invDT: real): (b: real)
    ensures 0.0 <= invDT ==> 0.0 <= b
    ensures -ALLOWED_PENETRATION <= separation ==> b == 0.0
    ensures separation < -ALLOWED_PENETRATION ==>
              b == BIAS_FACTOR * invDT * (-ALLOWED_PENETRATION - separation)
  {
    -BIAS_FACTOR * invDT * Min(0.0, separation + ALLOWED_PENETRATION)
  }

  /** The contact with its per-tick solver values computed. */
  function Prepared(c: Contact, s1: Inertia, s2: Inertia, invDT: real): (r: Contact)
    requires Solvable(c, s1, s2)
    ensures r.massNormal * KNormal(c, s1, s2) == 1.0
    ensures r.massTangent * KTangent(c, s1, s2) == 1.0
    ensures r.bias == Bias(c.separation, invDT)
    ensures r.(massNormal := c.massNormal, massTangent := c.massTangent, bias := c.bias) == c
  {
    c.(massNormal := 1.0 / KNormal(c, s1, s2),
       massTangent := 1.0 / KTangent(c, s1, s2),
       bias := Bias(c.separation, invDT))
  }

  /** The motion of a body after it receives impulse `p` at arm `r`. */
  function Pushed(m: Motion, s: Inertia, r: Vec, p: Vec): Motion {
    Motion(Add(m.velocity, Scale(p, s.invMass)), m.angularVelocity + s.invI * Cross(r, p))
  }

  /** Impulse `p` applied to the second body and `-p` to the first. */
  function Exchange(vs: Velocities, s1: Inertia, s2: Inertia, r1: Vec, r2: Vec, p: Vec): Velocities {
    Velocities(Pushed(vs.m1, s1, r1, Neg(p)), Pushed(vs.m2, s2, r2, p))
  }

  /** The accumulated impulses of `c`, scaled by the combined hardness. */
  function WarmImpulse(c: Contact, hardness: real): Vec {
    Scale(Add(Scale(c.normal, c.accumulatedNormalImpulse),
              Scale(Tangent(c), c.accumulatedTangentImpulse)), hardness)
  }

  /** Every contact of `cs` is solvable against the two bodies. */
  predicate AllSolvable(cs: seq<Contact>, s1: Inertia, s2: Inertia) {
    forall i :: 0 <= i < |cs| ==> Solvable(cs[i], s1, s2)
  }

  /** The pre-step over the contacts `cs`, in order: every contact is
      prepared, and its warm-start impulse is exchanged between the bodies. */
  function PreStepAll(cs: seq<Contact>, vs: Velocities, s1: Inertia, s2: Inertia,
                      hardness: real, invDT: real): (o: Outcome)
    requires AllSolvable(cs, s1, s2)
    ensures |o.contacts| == |cs|
    decreases |cs|
  {
    if |cs| == 0 then Outcome([], vs)
    else
      var o := PreStepAll(cs[..|cs| - 1], vs, s1, s2, hardness, invDT);
      var c := Prepared(cs[|cs| - 1], s1, s2, invDT);
      Outcome(o.contacts + [c],
              Exchange(o.velocities, s1, s2, Arm(c, s1), Arm(c, s2), WarmImpulse(c, hardness)))
  }

  /** With a non-negative friction, `tangent` lies in the friction cone
      [-friction * normal, friction * normal]. */
  predicate InCone(friction: real, normal: real, tangent: real) {
    0.0 <= friction ==> -friction * normal <= tangent <= friction * normal
  }

  /** The velocity of the second body's contact point relative to the first's. */
  function RelativeVelocity(vs: Velocities, r1: Vec, r2: Vec): Vec {
    Sub(Sub(Add(vs.m2.velocity, CrossScalar(vs.m2.angularVelocity, r2)), vs.m1.velocity),
        CrossScalar(vs.m1.angularVelocity, r1))
  }

  /** The impulse that takes the accumulated impulses of `c` to those of `d`. */
  function Increment(c: Contact, d: Contact): Vec {
    Add(Scale(c.normal, d.accumulatedNormalImpulse - c.accumulatedNormalImpulse),
        Scale(Tangent(c), d.accumulatedTangentImpulse - c.accumulatedTangentImpulse))
  }

  /** The normal half of an impulse step: the accumulated normal impulse
      moves towards the value that cancels the normal relative velocity
      (plus bias), but never below zero, and the change is exchanged. */
  function NormalStep(c: Contact, vs: Velocities, s1: Inertia, s2: Inertia): (o: Resolved)
    ensures 0.0 <= o.contact.accumulatedNormalImpulse
    ensures o.contact == c.(accumulatedNormalImpulse := o.contact.accumulatedNormalImpulse)
    ensures o.velocities == Exchange(vs, s1, s2, Arm(c, s1), Arm(c, s2),
                                     Scale(c.normal, o.contact.accumulatedNormalImpulse - c.accumulatedNormalImpulse))
  {
    var r1 := Arm(c, s1);
    var r2 := Arm(c, s2);
    var vn := Dot(RelativeVelocity(vs, r1, r2), c.normal);
    var accN := Max(c.accumulatedNormalImpulse + c.massNormal * (-vn + c.bias), 0.0);
    var pn := Scale(c.normal, accN - c.accumulatedNormalImpulse);
    Resolved(c.(accumulatedNormalImpulse := accN), Exchange(vs, s1, s2, r1, r2, pn))
  }

  /** The friction half of an impulse step: the accumulated tangent impulse
      moves towards the value that cancels the tangential relative velocity,
      clamped to the friction cone of the accumulated normal impulse. */
  function FrictionStep(c: Contact, vs: Velocities, s1: Inertia, s2: Inertia, friction: real): (o: Resolved)
    ensures 0.0 <= c.accumulatedNormalImpulse ==>
              InCone(friction, c.accumulatedNormalImpulse, o.contact.accumulatedTangentImpulse)
    ensures o.contact == c.(accumulatedTangentImpulse := o.contact.accumulatedTangentImpulse)
    ensures o.velocities == Exchange(vs, s1, s2, Arm(c, s1), Arm(c, s2),
                                     Scale(Tangent(c), o.contact.accumulatedTangentImpulse - c.accumulatedTangentImpulse))
  {
    var r1 := Arm(c, s1);
    var r2 := Arm(c, s2);
    var t := Tangent(c);
    var vt := Dot(RelativeVelocity(vs, r1, r2), t);
    var maxT := friction * c.accumulatedNormalImpulse;
    var accT := Clamp(c.accumulatedTangentImpulse + c.massTangent * (-vt), -maxT, maxT);
    ConeBound(friction, c.accumulatedNormalImpulse, c.accumulatedTangentImpulse + c.massTangent * (-vt));
    var pt := Scale(t, accT - c.accumulatedTangentImpulse);
    Resolved(c.(accumulatedTangentImpulse := accT), Exchange(vs, s1, s2, r1, r2, pt))
  }

  /** Clamping to [-friction * n, friction * n] lands inside the cone. */
  lemma ConeBound(friction: real, n: real, x: real)
    ensures 0.0 <= n ==> InCone(friction, n, Clamp(x, -(friction * n), friction * n))
  {
    if 0.0 <= friction && 0.0 <= n {
      MulNonNegative(friction, n);
      assert -friction * n == -(friction * n);
    }
  }

  /** One impulse step on contact `c`: the normal impulse, with its
      accumulated value clamped to be non-negative, and then the friction
      impulse, with its accumulated value clamped to the friction cone. The
      bodies receive exactly the change of the accumulated impulses, the
      second body positively and the first negatively. */
  function ApplyContact(c: Contact, vs: Velocities, s1: Inertia, s2: Inertia, friction: real): (o: Resolved)
    ensures 0.0 <= o.contact.accumulatedNormalImpulse
    ensures InCone(friction, o.contact.accumulatedNormalImpulse, o.contact.accumulatedTangentImpulse)
    ensures o.contact == c.(accumulatedNormalImpulse := o.contact.accumulatedNormalImpulse,
                            accumulatedTangentImpulse := o.contact.accumulatedTangentImpulse)
    ensures o.velocities == Exchange(vs, s1, s2, Arm(c, s1), Arm(c, s2), Increment(c, o.contact))
  {
    var n := NormalStep(c, vs, s1, s2);
    var f := FrictionStep(n.contact, n.velocities, s1, s2, friction);
    StepsCompose(c, vs, s1, s2, friction, n, f);
    f
  }

  /** The normal step followed by the friction step is one exchange of the
      total change of the accumulated impulses. */
  lemma StepsCompose(c: Contact, vs: Velocities, s1: Inertia, s2: Inertia, friction: real, n: Resolved, f: Resolved)
    requires 0.0 <= n.contact.accumulatedNormalImpulse
    requires n.contact == c.(accumulatedNormalImpulse := n.contact.accumulatedNormalImpulse)
    requires n.velocities == Exchange(vs, s1, s2, Arm(c, s1), Arm(c, s2),
                                      Scale(c.normal, n.contact.accumulatedNormalImpulse - c.accumulatedNormalImpulse))
    requires InCone(friction, n.contact.accumulatedNormalImpulse, f.contact.accumulatedTangentImpulse)
    requires f.contact == n.contact.(accumulatedTangentImpulse := f.contact.accumulatedTangentImpulse)
    requires f.velocities == Exchange(n.velocities, s1, s2, Arm(n.contact, s1), Arm(n.contact, s2),
                                      Scale(Tangent(n.contact), f.contact.accumulatedTangentImpulse - n.contact.accumulatedTangentImpulse))
    ensures InCone(friction, f.contact.accumulatedNormalImpulse, f.contact.accumulatedTangentImpulse)
    ensures f.contact == c.(accumulatedNormalImpulse := f.contact.accumulatedNormalImpulse,
                            accumulatedTangentImpulse := f.contact.accumulatedTangentImpulse)
    ensures f.velocities == Exchange(vs, s1, s2, Arm(c, s1), Arm(c, s2), Increment(c, f.contact))
  {
    var pn := Scale(c.normal, n.contact.accumulatedNormalImpulse - c.accumulatedNormalImpulse);
    var pt := Scale(Tangent(c), f.contact.accumulatedTangentImpulse - c.accumulatedTangentImpulse);
    assert Increment(c, f.contact) == Add(pn, pt);
    ExchangeAdditive(vs, s1, s2, Arm(c, s1), Arm(c, s2), pn, pt);
  }

  /** One impulse pass over the contacts `cs`, in order. */
  function ApplyAll(cs: seq<Contact>, vs: Velocities, s1: Inertia, s2: Inertia, friction: real): (o: Outcome)
    ensures |o.contacts| == |cs|
    decreases |cs|
  {
    if |cs| == 0 then Outcome([], vs)
    else
      var o := ApplyAll(cs[..|cs| - 1], vs, s1, s2, friction);
      var r := ApplyContact(cs[|cs| - 1], o.velocities, s1, s2, friction);
      Outcome(o.contacts + [r.contact], r.velocities)
  }

  /** The pre-step over one more contact extends the pre-step over the
      prefix by that contact. */
  lemma PreStepAllSnoc(cs: seq<Contact>, i: nat, vs: Velocities, s1: Inertia, s2: Inertia,
                       hardness: real, invDT: real)
    requires i < |cs| && AllSolvable(cs, s1, s2)
    ensures AllSolvable(cs[..i], s1, s2) && AllSolvable(cs[..i + 1], s1, s2)
    ensures var o := PreStepAll(cs[..i], vs, s1, s2, hardness, invDT);
            var c := Prepared(cs[i], s1, s2, invDT);
            PreStepAll(cs[..i + 1], vs, s1, s2, hardness, invDT) ==
              Outcome(o.contacts + [c], Exchange(o.velocities, s1, s2, Arm(c, s1), Arm(c, s2), WarmImpulse(c, hardness)))
  {
    assert cs[..i + 1][..i] == cs[..i];
  }

  /** The impulse pass over one more contact extends the pass over the
      prefix by that contact. */
  lemma ApplyAllSnoc(cs: seq<Contact>, i: nat, vs: Velocities, s1: Inertia, s2: Inertia, friction: real)
    requires i < |cs|
    ensures var o := ApplyAll(cs[..i], vs, s1, s2, friction);
            var r := ApplyContact(cs[i], o.velocities, s1, s2, friction);
            ApplyAll(cs[..i + 1], vs, s1, s2, friction) == Outcome(o.contacts + [r.contact], r.velocities)
  {
    assert cs[..i + 1][..i] == cs[..i];
  }

  /** `slots` and `ws` are the state after the pre-step has processed the
      first `i` contacts of `cs`: the first `i` slots hold the prepared
      contacts, the others up to |cs| still hold those of `cs`, and `ws`
      are the motions reached. */
  ghost predicate PreStepPrefix(cs: seq<Contact>, i: nat, slots: seq<Contact>, ws: Velocities,
                                vs: Velocities, s1: Inertia, s2: Inertia, hardness: real, invDT: real)
  {
    i <= |cs| <= |slots| && AllSolvable(cs, s1, s2) &&
    AllSolvable(cs[..i], s1, s2) &&
    slots[..i] == PreStepAll(cs[..i], vs, s1, s2, hardness, invDT).contacts &&
    ws == PreStepAll(cs[..i], vs, s1, s2, hardness, invDT).velocities &&
    forall m :: i <= m < |cs| ==> slots[m] == cs[m]
  }

  /** Preparing slot `i` and exchanging its warm-start impulse extends the
      pre-step state by one contact. */
  lemma PreStepStep(cs: seq<Contact>, i: nat, before: seq<Contact>, after: seq<Contact>, w: Velocities, w': Velocities,
                    vs: Velocities, s1: Inertia, s2: Inertia, hardness: real, invDT: real)
    requires PreStepPrefix(cs, i, before, w, vs, s1, s2, hardness, invDT) && i < |cs|
    requires |after| == |before| && forall m :: 0 <= m < |before| && m != i ==> after[m] == before[m]
    requires Solvable(before[i], s1, s2)
    requires after[i] == Prepared(before[i], s1, s2, invDT)
    requires w' == Exchange(w, s1, s2, Arm(after[i], s1), Arm(after[i], s2), WarmImpulse(after[i], hardness))
    ensures PreStepPrefix(cs, i + 1, after, w', vs, s1, s2, hardness, invDT)
  {
    PreStepAllSnoc(cs, i, vs, s1, s2, hardness, invDT);
    assert after[..i + 1] == before[..i] + [after[i]];
  }

  /** `slots` and `ws` are the state after the impulse pass has processed
      the first `i` contacts of `cs`. */
  ghost predicate ApplyPrefix(cs: seq<Contact>, i: nat, slots: seq<Contact>, ws: Velocities,
                              vs: Velocities, s1: Inertia, s2: Inertia, friction: real)
  {
    i <= |cs| <= |slots| &&
    slots[..i] == ApplyAll(cs[..i], vs, s1, s2, friction).contacts &&
    ws == ApplyAll(cs[..i], vs, s1, s2, friction).velocities &&
    forall m :: i <= m < |cs| ==> slots[m] == cs[m]
  }

  /** The impulse step of slot `i` extends the impulse-pass state by one
      contact. */
  lemma ApplyStep(cs: seq<Contact>, i: nat, before: seq<Contact>, after: seq<Contact>, w: Velocities, w': Velocities,
                  vs: Velocities, s1: Inertia, s2: Inertia, friction: real)
    requires ApplyPrefix(cs, i, before, w, vs, s1, s2, friction) && i < |cs|
    requires |after| == |before| && forall m :: 0 <= m < |before| && m != i ==> after[m] == before[m]
    requires after[i] == ApplyContact(before[i], w, s1, s2, friction).contact
    requires w' == ApplyContact(before[i], w, s1, s2, friction).velocities
    ensures ApplyPrefix(cs, i + 1, after, w', vs, s1, s2, friction)
  {
    ApplyAllSnoc(cs, i, vs, s1, s2, friction);
    assert after[..i + 1] == before[..i] + [after[i]];
  }

  lemma MulNonNegative(a: real, b: real)
    requires 0.0 <= a && 0.0 <= b
    ensures 0.0 <= a * b
  {
  }

  /** Two impulses at the same arm add up. */
  lemma PushedAdditive(m: Motion, s: Inertia, r: Vec, p: Vec, q: Vec)
    ensures Pushed(Pushed(m, s, r, p), s, r, q) == Pushed(m, s, r, Add(p, q))
  {
    var v, k := m.velocity, s.invMass;
    AddAssociative(v, Scale(p, k), Scale(q, k));
    ScaleDistributes(p, q, k);
    assert Add(Add(v, Scale(p, k)), Scale(q, k)) == Add(v, Scale(Add(p, q), k));
    var cp, cq := Cross(r, p), Cross(r, q);
    CrossDistributes(r, p, q);
    MulDistributes(s.invI, cp, cq);
    assert m.angularVelocity + s.invI * cp + s.invI * cq == m.angularVelocity + s.invI * Cross(r, Add(p, q));
  }

  /** Two exchanged impulses at the same arms add up. */
  lemma ExchangeAdditive(vs: Velocities, s1: Inertia, s2: Inertia, r1: Vec, r2: Vec, p: Vec, q: Vec)
    ensures Exchange(Exchange(vs, s1, s2, r1, r2, p), s1, s2, r1, r2, q)
            == Exchange(vs, s1, s2, r1, r2, Add(p, q))
  {
    PushedAdditive(vs.m1, s1, r1, Neg(p), Neg(q));
    assert Add(Neg(p), Neg(q)) == Neg(Add(p, q));
    PushedAdditive(vs.m2, s2, r2, p, q);
  }

  /** A static body is not moved by any impulse. */
  lemma PushedStatic(m: Motion, s: Inertia, r: Vec, p: Vec)
    requires IsStatic(s)
    ensures Pushed(m, s, r, p) == m
  {
  }

  // ---------------------------------------------------------------------
  // Properties of the pre-step

  /** The pre-step prepares every contact from its own values alone. */
  lemma {:induction false} PreStepContacts(cs: seq<Contact>, vs: Velocities, s1: Inertia, s2: Inertia,
                                           hardness: real, invDT: real)
    requires AllSolvable(cs, s1, s2)
    ensures forall i :: 0 <= i < |cs| ==>
              PreStepAll(cs, vs, s1, s2, hardness, invDT).contacts[i] == Prepared(cs[i], s1, s2, invDT)
    decreases |cs|
  {
    if |cs| > 0 {
      var init := cs[..|cs| - 1];
      PreStepContacts(init, vs, s1, s2, hardness, invDT);
      forall i | 0 <= i < |cs| - 1
        ensures PreStepAll(cs, vs, s1, s2, hardness, invDT).contacts[i] == Prepared(cs[i], s1, s2, invDT)
      {
        assert init[i] == cs[i];
      }
    }
  }

  /** Every bias the pre-step writes is non-negative for a non-negative
      inverse time step, and zero for a contact within the allowed penetration. */
  lemma PreStepBias(cs: seq<Contact>, vs: Velocities, s1: Inertia, s2: Inertia,
                    hardness: real, invDT: real)
    requires AllSolvable(cs, s1, s2)
    ensures forall i :: 0 <= i < |cs| ==>
              var b := PreStepAll(cs, vs, s1, s2, hardness, invDT).contacts[i].bias;
              (0.0 <= invDT ==> 0.0 <= b) &&
              (-ALLOWED_PENETRATION <= cs[i].separation ==> b == 0.0)
  {
    PreStepContacts(cs, vs, s1, s2, hardness, invDT);
  }

  /** The pre-step leaves the motion of a static first body unchanged. */
  lemma {:induction false} PreStepStaticFirst(cs: seq<Contact>, vs: Velocities, s1: Inertia, s2: Inertia,
                                              hardness: real, invDT: real)
    requires AllSolvable(cs, s1, s2)
    requires IsStatic(s1)
    ensures PreStepAll(cs, vs, s1, s2, hardness, invDT).velocities.m1 == vs.m1
    decreases |cs|
  {
    if |cs| > 0 {
      PreStepStaticFirst(cs[..|cs| - 1], vs, s1, s2, hardness, invDT);
    }
  }

  /** The pre-step leaves the motion of a static second body unchanged. */
  lemma {:induction false} PreStepStaticSecond(cs: seq<Contact>, vs: Velocities, s1: Inertia, s2: Inertia,
                                               hardness: real, invDT: real)
    requires AllSolvable(cs, s1, s2)
    requires IsStatic(s2)
    ensures PreStepAll(cs, vs, s1, s2, hardness, invDT).velocities.m2 == vs.m2
    decreases |cs|
  {
    if |cs| > 0 {
      PreStepStaticSecond(cs[..|cs| - 1], vs, s1, s2, hardness, invDT);
    }
  }

  // ---------------------------------------------------------------------
  // Properties of the impulse pass

  /** `d` is `c` after an impulse step: only the accumulated impulses
      differ, the normal one is non-negative and, with a non-negative
      friction, the tangent one lies inside the friction cone. */
  predicate ClampedStep(c: Contact, d: Contact, friction: real) {
    d == c.(accumulatedNormalImpulse := d.accumulatedNormalImpulse,
            accumulatedTangentImpulse := d.accumulatedTangentImpulse) &&
    0.0 <= d.accumulatedNormalImpulse &&
    InCone(friction, d.accumulatedNormalImpulse, d.accumulatedTangentImpulse)
  }

  /** After an impulse pass every contact keeps its geometry and solver
      values, has a non-negative accumulated normal impulse and, with a
      non-negative friction, an accumulated tangent impulse inside the
      friction cone. */
  lemma {:induction false} ApplyAllClamped(cs: seq<Contact>, vs: Velocities, s1: Inertia, s2: Inertia, friction: real)
    ensures forall i :: 0 <= i < |cs| ==>
              ClampedStep(cs[i], ApplyAll(cs, vs, s1, s2, friction).contacts[i], friction)
    decreases |cs|
  {
    if |cs| > 0 {
      var init := cs[..|cs| - 1];
      ApplyAllClamped(init, vs, s1, s2, friction);
      var o := ApplyAll(init, vs, s1, s2, friction);
      var last := ApplyContact(cs[|cs| - 1], o.velocities, s1, s2, friction).contact;
      ApplyContactClamped(cs[|cs| - 1], o.velocities, s1, s2, friction);
      var all := ApplyAll(cs, vs, s1, s2, friction).contacts;
      assert all == o.contacts + [last];
      forall i | 0 <= i < |cs| ensures ClampedStep(cs[i], all[i], friction) {
        if i < |cs| - 1 {
          assert all[i] == o.contacts[i] && init[i] == cs[i];
        }
      }
    }
  }

  lemma ApplyContactClamped(c: Contact, vs: Velocities, s1: Inertia, s2: Inertia, friction: real)
    ensures ClampedStep(c, ApplyContact(c, vs, s1, s2, friction).contact, friction)
  {
  }

  /** An impulse pass leaves the motion of a static first body unchanged. */
  lemma {:induction false} ApplyAllStaticFirst(cs: seq<Contact>, vs: Velocities, s1: Inertia, s2: Inertia, friction: real)
    requires IsStatic(s1)
    ensures ApplyAll(cs, vs, s1, s2, friction).velocities.m1 == vs.m1
    decreases |cs|
  {
    if |cs| > 0 {
      ApplyAllStaticFirst(cs[..|cs| - 1], vs, s1, s2, friction);
    }
  }

  /** An impulse pass leaves the motion of a static second body unchanged. */
  lemma {:induction false} ApplyAllStaticSecond(cs: seq<Contact>, vs: Velocities, s1: Inertia, s2: Inertia, friction: real)
    requires IsStatic(s2)
    ensures ApplyAll(cs, vs, s1, s2, friction).velocities.m2 == vs.m2
    decreases |cs|
  {
    if |cs| > 0 {
      ApplyAllStaticSecond(cs[..|cs| - 1], vs, s1, s2, friction);
    }
  }

  // ---------------------------------------------------------------------
  // Momentum balance

  /** From `vs` to `ws` the changes of linear velocity, each weighted by
      the other body's inverse mass, cancel: for two dynamic bodies this
      says the total linear momentum is unchanged. */
  predicate MomentumBalanced(vs: Velocities, ws: Velocities, s1: Inertia, s2: Inertia) {
    var d1 := Sub(ws.m1.velocity, vs.m1.velocity);
    var d2 := Sub(ws.m2.velocity, vs.m2.velocity);
    d1.x * s2.invMass + d2.x * s1.invMass == 0.0 &&
    d1.y * s2.invMass + d2.y * s1.invMass == 0.0
  }

  lemma ProductsCancel(a: real, k1: real, k2: real)
    ensures -a * k1 * k2 + a * k2 * k1 == 0.0
  {
  }

  /** An exchange gives the two bodies opposite impulses. */
  lemma ExchangeBalanced(vs: Velocities, s1: Inertia, s2: Inertia, r1: Vec, r2: Vec, p: Vec)
    ensures MomentumBalanced(vs, Exchange(vs, s1, s2, r1, r2, p), s1, s2)
  {
    var ws := Exchange(vs, s1, s2, r1, r2, p);
    assert Sub(ws.m1.velocity, vs.m1.velocity) == Scale(Neg(p), s1.invMass);
    assert Sub(ws.m2.velocity, vs.m2.velocity) == Scale(p, s2.invMass);
    ProductsCancel(p.x, s1.invMass, s2.invMass);
    ProductsCancel(p.y, s1.invMass, s2.invMass);
  }

  lemma SumsCancel(a: real, b: real, c: real, d: real, k1: real, k2: real)
    requires a * k2 + b * k1 == 0.0 && c * k2 + d * k1 == 0.0
    ensures (a + c) * k2 + (b + d) * k1 == 0.0
  {
    MulDistributes(k2, a, c);
    MulDistributes(k1, b, d);
  }

  /** Balance composes along consecutive changes. */
  lemma BalancedTransitive(a: Velocities, b: Velocities, c: Velocities, s1: Inertia, s2: Inertia)
    requires MomentumBalanced(a, b, s1, s2) && MomentumBalanced(b, c, s1, s2)
    ensures MomentumBalanced(a, c, s1, s2)
  {
    var p1, q1 := Sub(b.m1.velocity, a.m1.velocity), Sub(c.m1.velocity, b.m1.velocity);
    var p2, q2 := Sub(b.m2.velocity, a.m2.velocity), Sub(c.m2.velocity, b.m2.velocity);
    SumsCancel(p1.x, p2.x, q1.x, q2.x, s1.invMass, s2.invMass);
    SumsCancel(p1.y, p2.y, q1.y, q2.y, s1.invMass, s2.invMass);
    assert Sub(c.m1.velocity, a.m1.velocity) == Add(p1, q1);
    assert Sub(c.m2.velocity, a.m2.velocity) == Add(p2, q2);
  }

  /** For two dynamic bodies, balance is conservation of linear momentum:
      the mass-weighted velocity changes sum to zero. */
  lemma BalancedConservesMomentum(vs: Velocities, ws: Velocities, s1: Inertia, s2: Inertia)
    requires 0.0 < s1.invMass && 0.0 < s2.invMass
    requires MomentumBalanced(vs, ws, s1, s2)
    ensures Add(Scale(Sub(ws.m1.velocity, vs.m1.velocity), 1.0 / s1.invMass),
                Scale(Sub(ws.m2.velocity, vs.m2.velocity), 1.0 / s2.invMass)) == ZERO
  {
    var d1 := Sub(ws.m1.velocity, vs.m1.velocity);
    var d2 := Sub(ws.m2.velocity, vs.m2.velocity);
    Unweighted(d1.x, d2.x, s1.invMass, s2.invMass);
    Unweighted(d1.y, d2.y, s1.invMass, s2.invMass);
  }

  lemma Unweighted(a: real, b: real, k1: real, k2: real)
    requires 0.0 < k1 && 0.0 < k2
    requires a * k2 + b * k1 == 0.0
    ensures a * (1.0 / k1) + b * (1.0 / k2) == 0.0
  {
    var m := 1.0 / (k1 * k2);
    assert (a * k2 + b * k1) * m == 0.0;
    assert a * k2 * m == a * (1.0 / k1);
    assert b * k1 * m == b * (1.0 / k2);
  }

  /** The pre-step changes the bodies' motions by opposite impulses only. */
  lemma {:induction false} PreStepAllBalanced(cs: seq<Contact>, vs: Velocities, s1: Inertia, s2: Inertia,
                                              hardness: real, invDT: real)
    requires AllSolvable(cs, s1, s2)
    ensures MomentumBalanced(vs, PreStepAll(cs, vs, s1, s2, hardness, invDT).velocities, s1, s2)
    decreases |cs|
  {
    if |cs| > 0 {
      var init := cs[..|cs| - 1];
      PreStepAllBalanced(init, vs, s1, s2, hardness, invDT);
      var o := PreStepAll(init, vs, s1, s2, hardness, invDT);
      var c := Prepared(cs[|cs| - 1], s1, s2, invDT);
      ExchangeBalanced(o.velocities, s1, s2, Arm(c, s1), Arm(c, s2), WarmImpulse(c, hardness));
      BalancedTransitive(vs, o.velocities, PreStepAll(cs, vs, s1, s2, hardness, invDT).velocities, s1, s2);
    }
  }

  /** An impulse pass changes the bodies' motions by opposite impulses only. */
  lemma {:induction false} ApplyAllBalanced(cs: seq<Contact>, vs: Velocities, s1: Inertia, s2: Inertia, friction: real)
    ensures MomentumBalanced(vs, ApplyAll(cs, vs, s1, s2, friction).velocities, s1, s2)
    decreases |cs|
  {
    if |cs| > 0 {
      var init := cs[..|cs| - 1];
      ApplyAllBalanced(init, vs, s1, s2, friction);
      var o := ApplyAll(init, vs, s1, s2, friction);
      var c := cs[|cs| - 1];
      var r := ApplyContact(c, o.velocities, s1, s2, friction);
      ExchangeBalanced(o.velocities, s1, s2, Arm(c, s1), Arm(c, s2), Increment(c, r.contact));
      BalancedTransitive(vs, o.velocities, r.velocities, s1, s2);
    }
  }
}
