/** A single point of contact between the two bodies of an arbiter. */
module Contacts {
  import opened Vectors

  /** The edges of the two shapes that produced a contact; two contacts
      from different frames are "the same" exactly when these are equal. */
  datatype FeaturePair = FeaturePair(inEdge1: int, outEdge1: int, inEdge2: int, outEdge2: int)

  /** Geometry from the narrow phase (position, normal, separation, feature),
      the impulses accumulated by the solver, and the solver's per-tick
      scratch values (massNormal, massTangent, bias). */
  datatype Contact = Contact(
    position: Vec,
    normal: Vec,
    separation: real,
    accumulatedNormalImpulse: real,
    accumulatedTangentImpulse: real,
    massNormal: real,
    massTangent: real,
    bias: real,
    feature: FeaturePair)

  /** A freshly allocated contact: every number zero. */
  function NewContact(): Contact {
    Contact(ZERO, ZERO, 0.0, 0.0, 0.0, 0.0, 0.0, 0.0, FeaturePair(0, 0, 0, 0))
  }

  /** `a` and `b` describe the same point with the same feature. */
  predicate SameGeometry(a: Contact, b: Contact) {
    a.position == b.position && a.normal == b.normal &&
    a.separation == b.separation && a.feature == b.feature
  }
}
