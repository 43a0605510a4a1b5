# The phys2d contact arbiter, in Dafny

phys2d is a 2D rigid-body physics engine. Each pair of bodies that touch has
an **arbiter**. The arbiter holds up to two points of contact between the
two bodies and keeps them from one frame to the next, so that impulses
accumulated in one frame warm-start the solver in the next. It runs the
per-pair half of the sequential-impulse solver:

- **pre-step**: compute the effective masses and the position-correction
  bias of each contact, then re-apply the accumulated impulses to the
  bodies;
- **impulse pass**: a normal impulse clamped so the accumulated normal
  impulse never goes negative, then a friction impulse clamped to the
  Coulomb friction cone.

The model has six modules:

- `Vectors` (`vectors.dfy`): 2D vectors over exact reals, plus the
  `cross`, `min`, `max` and `clamp` helpers the arbiter uses.
- `Bodies` (`bodies.dfy`): the body class with the fields the arbiter reads
  and changes, and Java's 32-bit `int` wrap-around.
- `Contacts` (`contacts.dfy`): a contact as a value, and its feature pair.
- `Persistence` (`persistence.dfy`): how a new contact finds the stored
  contact with the same feature and inherits its impulses.
- `Solver` (`solver.dfy`): the pre-step and the impulse pass as functions on
  values, with the properties proved about them: friction cone, static
  bodies, opposite impulses.
- `Arbiters` (`arbiter.dfy`): the `Arbiter` class. It has the two-slot
  `contacts` array, `numContacts`, the two bodies and the combined
  friction. Its methods change the array and the bodies in place. The
  merge, pre-step and impulse methods are each proved against the
  `Persistence` or `Solver` function of the same step. The constructor,
  `Collide` and `Init` state their effect directly.

## Model

| member | source | states |
|---|---|---|
| Arbiters.Canonical | trunk/phys2d/src/net/phys2d/raw/Arbiter.java:78-87 | the ordered pair holds exactly the two given bodies, the lower hash code first; strictly lower when the hash codes differ |
| Arbiters.CanonicalSymmetric | trunk/phys2d/src/net/phys2d/raw/Arbiter.java:78-87 | bodies with different hash codes give the same ordered pair in either argument order |
| Arbiters.Arbiter.constructor | trunk/phys2d/src/net/phys2d/raw/Arbiter.java:73-88 | the bodies are stored in canonical order; both slots hold fresh all-zero contacts; no live contacts; friction zero |
| Arbiters.Arbiter.Collide | trunk/phys2d/src/net/phys2d/raw/Arbiter.java:94-96 | the contacts the narrow phase reports fill the first slots, their number becomes numContacts, and the other slots are unchanged |
| Arbiters.Arbiter.Init | trunk/phys2d/src/net/phys2d/raw/Arbiter.java:104-108 | with live contacts the friction becomes the non-negative square root of the product of the bodies' frictions; with none it is unchanged |
| Arbiters.Arbiter.MatchingSlot | trunk/phys2d/src/net/phys2d/raw/Arbiter.java:141-150 | the search returns the lowest live slot whose feature equals the given one, or -1 when there is none |
| Arbiters.Arbiter.MergeContacts | trunk/phys2d/src/net/phys2d/raw/Arbiter.java:136-164 | the scratch buffer is a new array whose slot i is new contact i merged with the stored contacts, with the geometry of new contact i; only the stored values are read |
| Arbiters.Arbiter.Update | trunk/phys2d/src/net/phys2d/raw/Arbiter.java:135-171 | numContacts becomes n; slot i < n has the geometry of new contact i and the impulses of the first stored contact with the same feature, if any, else its own; slots from n on are unchanged |
| Persistence.MatchIndex | trunk/phys2d/src/net/phys2d/raw/Arbiter.java:141-150 | the index is -1 or in range; a returned index has the feature, and no lower index (no index at all when -1) has it |
| Persistence.WarmStarted | trunk/phys2d/src/net/phys2d/raw/Arbiter.java:152-163 | the merged contact differs from the new one only in the two accumulated impulses; they come from the lowest stored contact with the same feature, and nothing changes when no stored contact has it |
| Arbiters.Arbiter.Exchange | trunk/phys2d/src/net/phys2d/raw/Arbiter.java:212-217 | the four velocity adjustments give the second body the impulse at its arm and the first body the opposite impulse at its arm |
| Solver.Bias | trunk/phys2d/src/net/phys2d/raw/Arbiter.java:206 | the bias is non-negative when invDT is; zero when separation >= -0.01; otherwise 0.1 * invDT times the penetration beyond 0.01 |
| Solver.Prepared | trunk/phys2d/src/net/phys2d/raw/Arbiter.java:190-206 | massNormal and massTangent are the inverses of the effective masses along the normal and the tangent; bias is Bias; nothing else changes |
| Solver.PreStepAll | trunk/phys2d/src/net/phys2d/raw/Arbiter.java:181-218 | the pre-step over a sequence of contacts yields one contact per input contact; that each is the prepared input contact is PreStepContacts |
| Arbiters.Arbiter.PreStepContact | trunk/phys2d/src/net/phys2d/raw/Arbiter.java:183-217 | slot i becomes its prepared contact; the bodies receive its accumulated impulses scaled by the summed hardness; other slots are unchanged |
| Arbiters.Arbiter.PreStep | trunk/phys2d/src/net/phys2d/raw/Arbiter.java:178-219 | the live contacts and the bodies' motions afterwards are those of PreStepAll over the live contacts from the old motions; slots from numContacts on are unchanged |
| Solver.PreStepContacts | trunk/phys2d/src/net/phys2d/raw/Arbiter.java:181-206 | every contact of the pre-step is prepared from its own values alone, whatever the bodies' motions |
| Solver.PreStepBias | trunk/phys2d/src/net/phys2d/raw/Arbiter.java:206 | after the pre-step every bias is non-negative for invDT >= 0, and zero for every contact with separation >= -0.01 |
| Solver.PreStepStaticFirst | trunk/phys2d/src/net/phys2d/raw/Arbiter.java:212-214 | a first body with zero inverse mass and inertia keeps its motion through the pre-step |
| Solver.PreStepStaticSecond | trunk/phys2d/src/net/phys2d/raw/Arbiter.java:212-217 | a second body with zero inverse mass and inertia keeps its motion through the pre-step |
| Solver.PreStepAllBalanced | trunk/phys2d/src/net/phys2d/raw/Arbiter.java:209-217 | the pre-step changes the two bodies' linear velocities by opposite impulses only |
| Solver.NormalStep | trunk/phys2d/src/net/phys2d/raw/Arbiter.java:244-259 | the accumulated normal impulse is non-negative; only it changes; the bodies exchange exactly new minus old accumulated normal impulse along the normal |
| Solver.FrictionStep | trunk/phys2d/src/net/phys2d/raw/Arbiter.java:261-286 | for a non-negative normal impulse the accumulated tangent impulse lies in the friction cone; only it changes; the bodies exchange exactly new minus old along the tangent |
| Solver.ConeBound | trunk/phys2d/src/net/phys2d/raw/Arbiter.java:268-276 | clamping to [-friction * n, friction * n] lands inside the friction cone of n |
| Solver.ApplyContact | trunk/phys2d/src/net/phys2d/raw/Arbiter.java:231-286 | after the normal and friction steps: accumulated normal impulse >= 0, tangent impulse in the cone, only the two impulses changed, and the bodies exchanged exactly their change |
| Solver.StepsCompose | trunk/phys2d/src/net/phys2d/raw/Arbiter.java:252-286 | the normal exchange followed by the friction exchange is a single exchange of the total change of the accumulated impulses |
| Solver.ExchangeAdditive | trunk/phys2d/src/net/phys2d/raw/Arbiter.java:255-286 | two impulses exchanged at the same arms have the effect of their sum |
| Solver.ApplyAll | trunk/phys2d/src/net/phys2d/raw/Arbiter.java:229-287 | the impulse pass over a sequence of contacts yields one contact per input contact; what each contact satisfies is ApplyAllClamped |
| Arbiters.Arbiter.ApplyImpulseAt | trunk/phys2d/src/net/phys2d/raw/Arbiter.java:231-286 | slot i and the bodies' motions become those of ApplyContact from the old slot and motions; other slots are unchanged |
| Arbiters.Arbiter.ApplyImpulse | trunk/phys2d/src/net/phys2d/raw/Arbiter.java:225-288 | the live contacts and the bodies' motions afterwards are those of ApplyAll over the live contacts; slots from numContacts on are unchanged |
| Solver.ApplyAllClamped | trunk/phys2d/src/net/phys2d/raw/Arbiter.java:248-277 | after a pass every contact keeps its geometry and solver values, has accumulated normal impulse >= 0 and, for friction >= 0, a tangent impulse of magnitude at most friction times the normal one |
| Solver.ApplyAllStaticFirst | trunk/phys2d/src/net/phys2d/raw/Arbiter.java:255-283 | a first body with zero inverse mass and inertia keeps its motion through the impulse pass |
| Solver.ApplyAllStaticSecond | trunk/phys2d/src/net/phys2d/raw/Arbiter.java:258-286 | a second body with zero inverse mass and inertia keeps its motion through the impulse pass |
| Solver.ApplyAllBalanced | trunk/phys2d/src/net/phys2d/raw/Arbiter.java:252-286 | the impulse pass changes the two bodies' linear velocities by opposite impulses only |
| Solver.PushedStatic | trunk/phys2d/src/net/phys2d/raw/Arbiter.java:255-256 | any impulse leaves a body with zero inverse mass and inertia unmoved |
| Solver.ExchangeBalanced | trunk/phys2d/src/net/phys2d/raw/Arbiter.java:212-217 | the velocity changes of an exchange, each weighted by the other body's inverse mass, cancel |
| Solver.BalancedConservesMomentum | trunk/phys2d/src/net/phys2d/raw/Arbiter.java:212-217 | for two dynamic bodies a balanced change leaves the total linear momentum unchanged |
| Bodies.Wrap32 | trunk/phys2d/src/net/phys2d/raw/Arbiter.java:294 | the result is a 32-bit int congruent to the sum modulo 2^32, and equal to it when it fits |
| Arbiters.Arbiter.HashCode | trunk/phys2d/src/net/phys2d/raw/Arbiter.java:293-295 | the hash code is the wrapped 32-bit sum of the two bodies' hash codes: congruent to the sum modulo 2^32, and equal to it when it fits |
| Arbiters.Arbiter.Equals | trunk/phys2d/src/net/phys2d/raw/Arbiter.java:300-305 | same first body and same second body (the `Object` class test is left out); equal arbiters describe the same pair and have equal hash codes |
| Arbiters.HashCodeSymmetric | trunk/phys2d/src/net/phys2d/raw/Arbiter.java:293-295 | arbiters for the same two bodies in either order have the same hash code, the wrapped sum of the bodies' hash codes |
| Arbiters.EqualsSymmetric | trunk/phys2d/src/net/phys2d/raw/Arbiter.java:300-305 | when the bodies' hash codes differ, arbiters built in either order are equal both ways |
| Arbiters.EqualsBrokenByHashCollision | trunk/phys2d/src/net/phys2d/raw/Arbiter.java:300-305 | two distinct bodies with equal hash codes give arbiters that are unequal when built in opposite orders |
| Arbiters.CollidingHashes | trunk/phys2d/src/net/phys2d/raw/Arbiter.java:300-305 | a concrete such pair: unequal under equals, yet the same pair of bodies |
| Arbiters.SamePairSymmetric | trunk/phys2d/src/net/phys2d/raw/Arbiter.java:300-305 | unordered-pair equality holds for arbiters built in either order, whatever the hash codes, and the hash codes agree |
| Arbiters.SamePairMatchesEquals | trunk/phys2d/src/net/phys2d/raw/Arbiter.java:300-305 | equals implies unordered-pair equality; when the bodies' hash codes differ the two coincide |

## Left out

- `Collide.collide`, the narrow phase, is not part of this model. `Collide` takes the contacts it reports as a parameter, at most two of them.
- Java `float` rounding and `strictfp` are not modelled; all arithmetic is on exact reals.
- `Math.sqrt` has no exact counterpart. `Init` receives the root as an argument and requires it to be the non-negative square root of the product of the frictions.
- Init: frictions whose product is negative (where Java gives NaN) are excluded by that requirement.
- PreStep: requires non-zero effective masses along the normal and the tangent (`AllSolvable`). With two static bodies Java divides by zero and stores Infinity, and the model does not represent infinities.
- PreStep, ApplyImpulse: require `body1 != body2`. An arbiter between a body and itself is not modelled.
- `getContacts` and `getNumContacts` are plain reads of the `contacts` and `numContacts` fields.
- Contacts are values, so a `Contact` object shared between arrays is not modelled. `Contact.set` is assumed to copy every field; Contact.java is not part of this model.
- Body.java, FeaturePair.java, MathUtil.java and Vector2f.java are not part of this model. Body identity hash codes are a constant field. Body and feature-pair equality are Dafny equality. `MathUtil.cross`, `scale` and `clamp` follow their usual definitions.
- Equals: takes an arbiter, so the run-time class test on an arbitrary `Object` is left out.
- The pre-step and the impulse pass are split into one method per contact (`PreStepContact`, `ApplyImpulseAt`), called from the loops. Those methods compute the per-contact step through the `Solver` functions that spell out the Java arithmetic line by line.
- World stepping, convergence and any physical claim over many frames are left out, since they depend on code outside this class.
- The game state and demo classes hold rendering, input and scene set-up only, and are left out.

## Findings

| source | as written | input that shows it | evidently intended | confidence | as-written member | corrected member |
|---|---|---|---|---|---|---|
| trunk/phys2d/src/net/phys2d/raw/Arbiter.java:300-305 | equals compares body1 with body1 and body2 with body2; the order comes from hash codes, and ties keep the argument order swapped | two distinct bodies a and b with equal identity hash codes: Arbiter(a, b) stores (b, a) and Arbiter(b, a) stores (a, b), so they are unequal although their hash codes agree | arbiters for the same two bodies are equal whatever the order they were discovered in | low; depends on identity hash collisions and on discovery order; not executed | Arbiters.EqualsBrokenByHashCollision | Arbiters.SamePairSymmetric |
