/** The per-body state the arbiter reads and changes. */
module Bodies {
  import opened Vectors

  const TWO_TO_31: int := 0x8000_0000
  const TWO_TO_32: int := 0x1_0000_0000

  /** A Java `int`. */
  type Int32 = x: int | -TWO_TO_31 <= x < TWO_TO_31

  /** Java's 32-bit two's-complement wrap-around of an integer result. */
  function Wrap32(x: int): (r: Int32)
    ensures (r - x) % TWO_TO_32 == 0
    ensures -TWO_TO_31 <= x < TWO_TO_31 ==> r == x
  {
    (x + TWO_TO_31) % TWO_TO_32 - TWO_TO_31
  }

  /** How a body is moving: linear and angular velocity. */
  datatype Motion = Motion(velocity: Vec, angularVelocity: real)

  /** What the solver reads of a body but never changes: its centre and
      its inverse mass and inverse moment of inertia (zero for a static body). */
  datatype Inertia = Inertia(position: Vec, invMass: real, invI: real)

  predicate IsStatic(s: Inertia) { s.invMass == 0.0 && s.invI == 0.0 }

  class Body {
    /** The identity hash code the body reports (Object.hashCode). */
    const hash: Int32
    var position: Vec
    var velocity: Vec
    var angularVelocity: real
    var invMass: real
    var invI: real
    var friction: real
    var hardness: real

    constructor (hash: Int32, position: Vec, invMass: real, invI: real, friction: real, hardness: real)
      ensures this.hash == hash && this.position == position
      ensures this.invMass == invMass && this.invI == invI
      ensures this.friction == friction && this.hardness == hardness
      ensures velocity == ZERO && angularVelocity == 0.0
    {
      this.hash := hash;
      this.position := position;
      this.invMass := invMass;
      this.invI := invI;
      this.friction := friction;
      this.hardness := hardness;
      velocity := ZERO;
      angularVelocity := 0.0;
    }

    function CurrentMotion(): Motion
      reads this
    {
      Motion(velocity, angularVelocity)
    }

    function Inertial(): Inertia
      reads this
    {
      Inertia(position, invMass, invI)
    }

    /** Adds `delta` to the linear velocity; nothing else changes. */
    method AdjustVelocity(delta: Vec)
      modifies this`velocity
      ensures velocity == Add(old(velocity), delta)
    {
      velocity := Add(velocity, delta);
    }

    /** Adds `delta` to the angular velocity; nothing else changes. */
    method AdjustAngularVelocity(delta: real)
      modifies this`angularVelocity
      ensures angularVelocity == old(angularVelocity) + delta
    {
      angularVelocity := angularVelocity + delta;
    }
  }
}
