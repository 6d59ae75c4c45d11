/**
 * The grappling hook of ATemporalDashCharacter: attaching to a traced point,
 * detaching, and the per-tick velocity shaping (pull toward the hook point,
 * steering, rope constraint, speed clamp).
 */
module Hook {
  import opened Wrappers
  import opened Vectors
  import opened Character

  /** The movement settings EndHook restores. */
  predicate HookDefaultsRestored(m: MoveComp)
  {
    m.gravityScale == 1.0 && m.groundFriction == 8.0 && m.brakingDecelerationWalking == 2000.0
    && m.mode == Walking
  }

  /**
   * EndHook: unhooked, gravity 1, friction 8, braking 2000, walking mode. The
   * switch to walking from another mode drops the vertical velocity.
   */
  function EndHook(c: Character): (r: Character)
    ensures !r.isHooked
    ensures r.movement.Some? <==> c.movement.Some?
    ensures r.movement.Some? ==>
              && HookDefaultsRestored(r.movement.value)
              && r.movement.value.velocity ==
                   (if c.movement.value.mode == Walking then c.movement.value.velocity
                    else WithZ(c.movement.value.velocity, 0.0))
              && r.movement.value.brakingFrictionFactor == c.movement.value.brakingFrictionFactor
              && r.movement.value.pendingLaunch == c.movement.value.pendingLaunch
    ensures r.(isHooked := c.isHooked, movement := c.movement) == c
  {
    var movement := match c.movement
      case None => None
      case Some(m) => Some(SetMovementMode(m.(gravityScale := 1.0, groundFriction := 8.0,
                                              brakingDecelerationWalking := 2000.0), Walking));
    c.(isHooked := false, movement := movement)
  }

  /**
   * PerformHook: hooked, with the rope length the current distance to the
   * hook point; flying mode, gravity 0.4, no friction or braking. The upward
   * impulse is guarded by a ground check made after the switch to flying, so
   * it is never queued.
   */
  function PerformHook(c: Character, actorLocation: Vec, size: Lengths): (r: Character)
    requires IsSize(size)
    ensures r.isHooked && r.hookPoint == c.hookPoint
    ensures r.hookMaxRopeLength == Dist(actorLocation, c.hookPoint, size)
    ensures r.hookMaxRopeLength >= 0.0
    ensures r.movement.Some? <==> c.movement.Some?
    ensures r.movement.Some? ==>
              && r.movement.value.mode == Flying && r.movement.value.gravityScale == 0.4
              && r.movement.value.groundFriction == 0.0 && r.movement.value.brakingDecelerationWalking == 0.0
              && r.movement.value.velocity == c.movement.value.velocity
              && r.movement.value.pendingLaunch == c.movement.value.pendingLaunch
    ensures r.(isHooked := c.isHooked, hookMaxRopeLength := c.hookMaxRopeLength, movement := c.movement) == c
  {
    var movement := match c.movement
      case None => None
      case Some(m) =>
        var m := SetMovementMode(m, Flying).(gravityScale := 0.4, groundFriction := 0.0, brakingDecelerationWalking := 0.0);
        Some(if IsMovingOnGround(m) then Launch(m, Vec(0.0, 0.0, 500.0), false, false) else m);
    c.(isHooked := true, hookMaxRopeLength := Dist(actorLocation, c.hookPoint, size), movement := movement)
  }

  /**
   * DoHookStart: nothing while hooked; otherwise `hit`, the trace result of
   * FindHookPoint (None for a miss or a missing camera), decides whether the
   * hook attaches at the hit location.
   */
  function DoHookStart(c: Character, hit: Option<Vec>, actorLocation: Vec, size: Lengths): (r: Character)
    requires IsSize(size)
    ensures c.isHooked || hit.None? ==> r == c
    ensures !c.isHooked && hit.Some? ==>
              && r.isHooked && r.hookPoint == hit.value
              && r.hookMaxRopeLength == Dist(actorLocation, hit.value, size)
              && r == PerformHook(c.(hookPoint := hit.value), actorLocation, size)
  {
    if c.isHooked then c
    else match hit
      case None => c
      case Some(p) => PerformHook(c.(hookPoint := p), actorLocation, size)
  }

  /** DoHookEnd: ends the hook only while hooked. */
  function DoHookEnd(c: Character): (r: Character)
    ensures !r.isHooked
    ensures !c.isHooked ==> r == c
    ensures c.isHooked ==> r == EndHook(c)
  {
    if c.isHooked then EndHook(c) else c
  }

  /** A velocity split into its part along a direction and the rest. */
  datatype Split = Split(normal: Vec, tangent: Vec)

  /**
   * The decomposition of `velocity` along `dir`. The parts add back up to the
   * velocity; for a unit `dir` the tangent is perpendicular to it and the
   * normal part is a multiple of it.
   */
  function Decompose(velocity: Vec, dir: Vec): (s: Split)
    ensures Add(s.normal, s.tangent) == velocity
    ensures s.normal == Scale(dir, Dot(velocity, dir))
    ensures NormSq(dir) == 1.0 ==> Dot(s.tangent, dir) == 0.0
  {
    var normalSpeed := Dot(velocity, dir);
    var vNormal := Scale(dir, normalSpeed);
    Split(vNormal, Sub(velocity, vNormal))
  }

  /**
   * The steering force: the cached movement input turned into world space by
   * `rotate` (the control rotation, uninterpreted), flattened, normalized, and
   * scaled by HookSteeringInfluence * 800 * DeltaTime; zero when the input is
   * nearly zero.
   */
  function Steering(lastInput: Vec, rotate: Vec -> Vec, influence: real, deltaTime: real,
                    size: Lengths): (r: Vec)
    requires IsSize(size)
    ensures IsNearlyZero(lastInput) ==> r == Zero
    ensures r.z == 0.0
    // a flattened input long enough to normalize gives a force of exactly the scaled magnitude
    ensures var k := influence * 800.0 * deltaTime;
            !IsNearlyZero(lastInput) && NormSq(WithZ(rotate(lastInput), 0.0)) > SmallNumber ==>
              NormSq(r) == k * k
    // a shorter one is only scaled
    ensures !IsNearlyZero(lastInput) && NormSq(WithZ(rotate(lastInput), 0.0)) <= SmallNumber ==>
              r == Scale(WithZ(rotate(lastInput), 0.0), influence * 800.0 * deltaTime)
  {
    if IsNearlyZero(lastInput) then Zero
    else
      var w := WithZ(rotate(lastInput), 0.0);
      var w' := Normalized(w, size);
      var k :| k > 0.0 && w' == Scale(w, k);
      NormSqScale(w', influence * 800.0 * deltaTime);
      Scale(w', influence * 800.0 * deltaTime)
  }

  /**
   * Steps 3 to 7 of UpdateHookMovement as written: split the velocity, add
   * the pull to the normal part, add the steering to the tangent, and, past
   * the rope length with outward motion, replace the tangent by the tangent of
   * the constrained velocity. The normal part recomputed from the constrained
   * velocity is never used.
   */
  function ComposeAsWritten(velocity: Vec, dir: Vec, beyondRope: bool, pull: real, steering: Vec): (r: Vec)
  {
    var split := Decompose(velocity, dir);
    var newNormal := Add(split.normal, Scale(dir, pull));
    var tangent := Add(split.tangent, steering);
    var outwardSpeed := Dot(velocity, Neg(dir));
    var tangent :=
      if beyondRope && outwardSpeed > 0.0 then
        var constrained := Sub(velocity, Scale(Neg(dir), outwardSpeed));
        Decompose(constrained, dir).tangent
      else tangent;
    Add(newNormal, tangent)
  }

  /** Whether the rope branch of UpdateHookMovement fires. */
  predicate RopeBranch(velocity: Vec, dir: Vec, beyondRope: bool)
  {
    beyondRope && Dot(velocity, Neg(dir)) > 0.0
  }

  /**
   * Outside the rope branch the result is the pulled normal part plus the
   * steered tangent; inside it, for a unit direction, it is the pulled normal
   * part plus the tangent before steering: the steering is dropped.
   */
  lemma ComposeAsWrittenParts(velocity: Vec, dir: Vec, beyondRope: bool, pull: real, steering: Vec)
    ensures var s := Decompose(velocity, dir);
            !RopeBranch(velocity, dir, beyondRope) ==>
              ComposeAsWritten(velocity, dir, beyondRope, pull, steering)
                == Add(Add(s.normal, Scale(dir, pull)), Add(s.tangent, steering))
    ensures var s := Decompose(velocity, dir);
            RopeBranch(velocity, dir, beyondRope) && NormSq(dir) == 1.0 ==>
              ComposeAsWritten(velocity, dir, beyondRope, pull, steering)
                == Add(Add(s.normal, Scale(dir, pull)), s.tangent)
  {
    var s := Decompose(velocity, dir);
    if RopeBranch(velocity, dir, beyondRope) && NormSq(dir) == 1.0 {
      var outwardSpeed := Dot(velocity, Neg(dir));
      var constrained := Sub(velocity, Scale(Neg(dir), outwardSpeed));
      assert constrained == s.tangent;
      var s' := Decompose(constrained, dir);
      assert Dot(constrained, dir) == 0.0;
      assert s'.normal == Zero;
      assert s'.tangent == s.tangent;
    }
  }

  /**
   * For a unit direction the pull adds exactly `pull` to the speed along the
   * direction; the tangent contributes only what the steering does.
   */
  lemma PullAlongDirection(velocity: Vec, dir: Vec, beyondRope: bool, pull: real, steering: Vec)
    requires NormSq(dir) == 1.0
    ensures !RopeBranch(velocity, dir, beyondRope) ==>
              Dot(ComposeAsWritten(velocity, dir, beyondRope, pull, steering), dir)
                == Dot(velocity, dir) + pull + Dot(steering, dir)
    ensures RopeBranch(velocity, dir, beyondRope) ==>
              Dot(ComposeAsWritten(velocity, dir, beyondRope, pull, steering), dir) == Dot(velocity, dir) + pull
  {
    ComposeAsWrittenParts(velocity, dir, beyondRope, pull, steering);
    var s := Decompose(velocity, dir);
    var pulled := Add(s.normal, Scale(dir, pull));
    DotAdd(s.normal, Scale(dir, pull), dir);
    DotScale(dir, Dot(velocity, dir), dir);
    DotScale(dir, pull, dir);
    assert Dot(pulled, dir) == Dot(velocity, dir) + pull;
    if RopeBranch(velocity, dir, beyondRope) {
      DotAdd(pulled, s.tangent, dir);
    } else {
      DotAdd(pulled, Add(s.tangent, steering), dir);
      DotAdd(s.tangent, steering, dir);
    }
  }

  /**
   * As written, the rope branch takes nothing off the outward speed: past the
   * rope length the character still moves away from the hook point at the
   * outward speed less the pull.
   */
  lemma RopeBranchKeepsOutwardSpeed(velocity: Vec, dir: Vec, pull: real, steering: Vec)
    requires NormSq(dir) == 1.0 && RopeBranch(velocity, dir, true)
    ensures Dot(ComposeAsWritten(velocity, dir, true, pull, steering), Neg(dir))
              == Dot(velocity, Neg(dir)) - pull
  {
    PullAlongDirection(velocity, dir, true, pull, steering);
    DotNeg(ComposeAsWritten(velocity, dir, true, pull, steering), dir);
    DotNeg(velocity, dir);
  }

  /**
   * A concrete case: hook point straight ahead along +X, moving away at 100,
   * pull 30 for this tick. The composed velocity still moves away at 70.
   */
  lemma RopeBranchCounterexample()
    ensures var dir := Vec(1.0, 0.0, 0.0);
            var velocity := Vec(-100.0, 0.0, 0.0);
            && RopeBranch(velocity, dir, true)
            && Dot(ComposeAsWritten(velocity, dir, true, 30.0, Zero), Neg(dir)) == 70.0
  {
    RopeBranchKeepsOutwardSpeed(Vec(-100.0, 0.0, 0.0), Vec(1.0, 0.0, 0.0), 30.0, Zero);
  }

  /**
   * The rope constraint as intended: the pulled and steered velocity, with
   * any component pointing away from the hook point removed when the
   * character is past the rope length.
   */
  function ComposeIntended(velocity: Vec, dir: Vec, beyondRope: bool, pull: real, steering: Vec): (r: Vec)
    ensures NormSq(dir) == 1.0 && beyondRope ==> Dot(r, Neg(dir)) <= 0.0
    // within the rope, or without outward motion, the pulled and steered velocity is kept
    ensures var s := Decompose(velocity, dir);
            var composed := Add(Add(s.normal, Scale(dir, pull)), Add(s.tangent, steering));
            !beyondRope || Dot(composed, Neg(dir)) <= 0.0 ==> r == composed
    // past the rope, for a unit direction, outward motion is cut to none and the tangent is kept
    ensures var s := Decompose(velocity, dir);
            var composed := Add(Add(s.normal, Scale(dir, pull)), Add(s.tangent, steering));
            NormSq(dir) == 1.0 ==>
              && (beyondRope && Dot(composed, Neg(dir)) > 0.0 ==> Dot(r, dir) == 0.0)
              && Decompose(r, dir).tangent == Decompose(composed, dir).tangent
  {
    var split := Decompose(velocity, dir);
    var composed := Add(Add(split.normal, Scale(dir, pull)), Add(split.tangent, steering));
    var outwardSpeed := Dot(composed, Neg(dir));
    if beyondRope && outwardSpeed > 0.0 then
      var r := Sub(composed, Scale(Neg(dir), outwardSpeed));
      DotSub(composed, Scale(Neg(dir), outwardSpeed), Neg(dir));
      DotScale(Neg(dir), outwardSpeed, Neg(dir));
      DotNeg(dir, dir);
      DotNeg(composed, dir);
      DotNeg(r, dir);
      TangentIgnoresNormalMotion(composed, dir, outwardSpeed);
      r
    else composed
  }

  /**
   * Moving a velocity along a unit direction changes only its normal part:
   * for a unit `dir`, the tangent of `v` less any multiple of the reversed
   * direction is the tangent of `v`.
   */
  lemma TangentIgnoresNormalMotion(v: Vec, dir: Vec, k: real)
    ensures NormSq(dir) == 1.0 ==>
              Decompose(Sub(v, Scale(Neg(dir), k)), dir).tangent == Decompose(v, dir).tangent
  {
    if NormSq(dir) == 1.0 {
      var moved := Sub(v, Scale(Neg(dir), k));
      SubReversedIsAdd(v, dir, k);
      assert Dot(moved, dir) == Dot(v, dir) + k by {
        DotAdd(v, Scale(dir, k), dir);
        DotScale(dir, k, dir);
      }
      RemoveNormalPart(v, dir, k, Dot(v, dir));
    }
  }

  lemma SubReversedIsAdd(v: Vec, d: Vec, k: real)
    ensures Sub(v, Scale(Neg(d), k)) == Add(v, Scale(d, k))
  {
    assert (-d.x) * k == -(d.x * k) && (-d.y) * k == -(d.y * k) && (-d.z) * k == -(d.z * k);
  }

  /** `v + k d` less its part `(a + k) d` along `d` is `v` less `a d`. */
  lemma RemoveNormalPart(v: Vec, d: Vec, k: real, a: real)
    ensures Sub(Add(v, Scale(d, k)), Scale(d, a + k)) == Sub(v, Scale(d, a))
  {
    assert d.x * (a + k) == d.x * a + d.x * k;
    assert d.y * (a + k) == d.y * a + d.y * k;
    assert d.z * (a + k) == d.z * a + d.z * k;
  }

  /**
   * Step 8: a velocity longer than `maxVelocity` is scaled down to it along
   * its own direction; a velocity within the bound is kept.
   */
  function ClampVelocity(v: Vec, maxVelocity: real, size: Lengths): (r: Vec)
    requires IsSize(size) && maxVelocity >= 0.0
    ensures NormSq(r) <= maxVelocity * maxVelocity
    ensures NormSq(v) <= maxVelocity * maxVelocity ==> r == v
    ensures exists k: real :: k >= 0.0 && r == Scale(v, k)
  {
    if size.length(v) > maxVelocity then
      ClampDown(v, maxVelocity, size);
      Scale(SafeNormal(v, size), maxVelocity)
    else
      LengthFacts(size, v);
      SquareMonotone(size.length(v), maxVelocity);
      assert v == Scale(v, 1.0);
      v
  }

  /** The scaled-down branch of ClampVelocity. */
  lemma ClampDown(v: Vec, maxVelocity: real, size: Lengths)
    requires IsSize(size) && 0.0 <= maxVelocity < size.length(v)
    ensures NormSq(v) > maxVelocity * maxVelocity
    ensures NormSq(Scale(SafeNormal(v, size), maxVelocity)) <= maxVelocity * maxVelocity
    ensures exists k: real :: k >= 0.0 && Scale(SafeNormal(v, size), maxVelocity) == Scale(v, k)
  {
    LengthFacts(size, v);
    SquareStrictMonotone(maxVelocity, size.length(v));
    var u := SafeNormal(v, size);
    var k :| k >= 0.0 && u == Scale(v, k);
    NormSqScale(u, maxVelocity);
    ScaleScale(v, k, maxVelocity);
    assert Scale(u, maxVelocity) == Scale(v, k * maxVelocity);
  }

  /** Scaling by a non-negative factor keeps a velocity from pointing away from the hook point. */
  lemma ClampKeepsInward(v: Vec, maxVelocity: real, size: Lengths, dir: Vec)
    requires IsSize(size) && maxVelocity >= 0.0 && Dot(v, Neg(dir)) <= 0.0
    ensures Dot(ClampVelocity(v, maxVelocity, size), Neg(dir)) <= 0.0
  {
    var r := ClampVelocity(v, maxVelocity, size);
    var k :| k >= 0.0 && r == Scale(v, k);
    DotScale(v, k, Neg(dir));
  }

  /** Which rope constraint a tick applies: the source's, or the intended one. */
  datatype Composition = AsWritten | Intended

  /**
   * Step 7 under `rule`. Within the rope length both rules give the pulled
   * normal part plus the steered tangent; past it the intended rule leaves no
   * component away from the hook point.
   */
  function Compose(rule: Composition, velocity: Vec, dir: Vec, beyondRope: bool, pull: real, steering: Vec): (r: Vec)
    ensures !beyondRope ==>
              && r == ComposeAsWritten(velocity, dir, beyondRope, pull, steering)
              && r == ComposeIntended(velocity, dir, beyondRope, pull, steering)
    ensures rule == Intended && beyondRope && NormSq(dir) == 1.0 ==> Dot(r, Neg(dir)) <= 0.0
  {
    match rule
    case AsWritten => ComposeAsWritten(velocity, dir, beyondRope, pull, steering)
    case Intended => ComposeIntended(velocity, dir, beyondRope, pull, steering)
  }

  /**
   * Steps 3 to 8 of UpdateHookMovement, given the unit direction to the hook
   * point, the steering force and the pull for this tick: the composition
   * under `rule`, then the clamp to HookMaxVelocity.
   */
  function HookVelocity(velocity: Vec, dir: Vec, steering: Vec, beyondRope: bool, pull: real, maxVelocity: real,
                        size: Lengths, rule: Composition): (r: Vec)
    requires IsSize(size) && maxVelocity >= 0.0
    ensures WithinSpeed(r, maxVelocity)
    ensures rule == Intended && beyondRope && NormSq(dir) == 1.0 ==> Dot(r, Neg(dir)) <= 0.0
  {
    var composed := Compose(rule, velocity, dir, beyondRope, pull, steering);
    if rule == Intended && beyondRope && NormSq(dir) == 1.0 then
      ClampKeepsInward(composed, maxVelocity, size, dir);
      ClampVelocity(composed, maxVelocity, size)
    else
      ClampVelocity(composed, maxVelocity, size)
  }

  /**
   * UpdateHookMovement: nothing unless hooked with a movement component;
   * closer than HookMinDetachDistance the hook ends without writing the
   * velocity; otherwise only the velocity changes, to the shaped velocity
   * clamped to HookMaxVelocity. `actorLocation` is the actor's position,
   * supplied by the engine; `rule` selects the rope constraint as written or
   * as intended, under which, past the rope length, the velocity never points
   * away from the hook point.
   */
  function UpdateHookMovement(c: Character, t: Tuning, actorLocation: Vec, deltaTime: real, rotate: Vec -> Vec,
                      size: Lengths, rule: Composition): (r: Character)
    requires IsSize(size) && t.hookMaxVelocity >= 0.0
    ensures !c.isHooked || c.movement.None? ==> r == c
    ensures c.isHooked && c.movement.Some? && size.length(Sub(c.hookPoint, actorLocation)) < t.hookMinDetachDistance ==>
              r == EndHook(c)
    ensures c.isHooked && c.movement.Some? && size.length(Sub(c.hookPoint, actorLocation)) >= t.hookMinDetachDistance ==>
              r.isHooked && r.movement.Some?
    ensures c.isHooked && c.movement.Some? && size.length(Sub(c.hookPoint, actorLocation)) >= t.hookMinDetachDistance ==>
              r.movement.value.(velocity := c.movement.value.velocity) == c.movement.value
    ensures c.isHooked && c.movement.Some? && size.length(Sub(c.hookPoint, actorLocation)) >= t.hookMinDetachDistance ==>
              r.(movement := c.movement) == c
    ensures c.isHooked && c.movement.Some? && size.length(Sub(c.hookPoint, actorLocation)) >= t.hookMinDetachDistance ==>
              r.movement.value.velocity == HookedVelocity(c, t, actorLocation, deltaTime, rotate, size, rule)
  {
    if !c.isHooked || c.movement.None? then c
    else if size.length(Sub(c.hookPoint, actorLocation)) < t.hookMinDetachDistance then EndHook(c)
    else
      var m := c.movement.value;
      c.(movement := Some(m.(velocity := HookedVelocity(c, t, actorLocation, deltaTime, rotate, size, rule))))
  }

  /**
   * The velocity a hooked tick writes: the direction to the hook point, the
   * steering force and the pull for this tick fed through HookVelocity.
   */
  function HookedVelocity(c: Character, t: Tuning, actorLocation: Vec, deltaTime: real, rotate: Vec -> Vec,
                          size: Lengths, rule: Composition): (r: Vec)
    requires IsSize(size) && t.hookMaxVelocity >= 0.0 && c.movement.Some?
    ensures WithinSpeed(r, t.hookMaxVelocity)
    ensures var toHook := Sub(c.hookPoint, actorLocation);
            rule == Intended && size.length(toHook) > c.hookMaxRopeLength && NormSq(toHook) >= SmallNumber ==>
              Dot(r, Neg(SafeNormal(toHook, size))) <= 0.0
  {
    var toHook := Sub(c.hookPoint, actorLocation);
    var dir := SafeNormal(toHook, size);
    assert NormSq(toHook) >= SmallNumber ==> NormSq(dir) == 1.0;
    var steering := Steering(c.lastMovementInput, rotate, t.hookSteeringInfluence, deltaTime, size);
    var v := HookVelocity(c.movement.value.velocity, dir, steering, size.length(toHook) > c.hookMaxRopeLength,
                          t.hookPullStrength * deltaTime, t.hookMaxVelocity, size, rule);
    v
  }

  /**
   * A hooked tick that keeps the hook leaves the character no faster than
   * HookMaxVelocity, and under the intended rope rule, past the rope length,
   * not moving away from the hook point.
   */
  lemma HookTickVelocity(c: Character, t: Tuning, actorLocation: Vec, deltaTime: real, rotate: Vec -> Vec,
                         size: Lengths, rule: Composition)
    requires IsSize(size) && t.hookMaxVelocity >= 0.0
    requires c.isHooked && c.movement.Some? && size.length(Sub(c.hookPoint, actorLocation)) >= t.hookMinDetachDistance
    ensures var v := UpdateHookMovement(c, t, actorLocation, deltaTime, rotate, size, rule).movement.value.velocity;
            WithinSpeed(v, t.hookMaxVelocity)
    ensures var toHook := Sub(c.hookPoint, actorLocation);
            var v := UpdateHookMovement(c, t, actorLocation, deltaTime, rotate, size, rule).movement.value.velocity;
            rule == Intended && size.length(toHook) > c.hookMaxRopeLength && NormSq(toHook) >= SmallNumber ==>
              Dot(v, Neg(SafeNormal(toHook, size))) <= 0.0
  {
    var toHook := Sub(c.hookPoint, actorLocation);
    var dir := SafeNormal(toHook, size);
    var v := HookedVelocity(c, t, actorLocation, deltaTime, rotate, size, rule);
    assert UpdateHookMovement(c, t, actorLocation, deltaTime, rotate, size, rule).movement.value.velocity == v;
    assert NormSq(toHook) >= SmallNumber ==> NormSq(dir) == 1.0;
  }

  /** While hooked with a movement component, the rope length is non-negative and the mode is flying. */
  predicate HookInvariant(c: Character)
  {
    c.isHooked && c.movement.Some? ==> c.hookMaxRopeLength >= 0.0 && c.movement.value.mode == Flying
  }

  /** DoHookStart establishes the hook invariant from an unhooked character and keeps it otherwise. */
  lemma HookStartEstablishesInvariant(c: Character, hit: Option<Vec>, actorLocation: Vec, size: Lengths)
    requires IsSize(size)
    ensures !c.isHooked || HookInvariant(c) ==> HookInvariant(DoHookStart(c, hit, actorLocation, size))
  {
  }

  /** A hooked tick and DoHookEnd keep the hook invariant. */
  lemma HookTickKeepsInvariant(c: Character, t: Tuning, actorLocation: Vec, deltaTime: real, rotate: Vec -> Vec,
                               size: Lengths, rule: Composition)
    requires IsSize(size) && t.hookMaxVelocity >= 0.0 && HookInvariant(c)
    ensures HookInvariant(UpdateHookMovement(c, t, actorLocation, deltaTime, rotate, size, rule))
    ensures HookInvariant(DoHookEnd(c))
  {
  }

  /**
   * Attaching and then releasing restores the movement defaults and leaves
   * the character as it was, except that the vertical velocity is dropped by
   * the return to walking and the hook point and rope length are recorded.
   */
  lemma HookEndAfterStart(c: Character, p: Vec, actorLocation: Vec, size: Lengths)
    requires IsSize(size) && !c.isHooked && c.movement.Some?
    ensures var r := DoHookEnd(DoHookStart(c, Some(p), actorLocation, size));
            var m := c.movement.value;
            && !r.isHooked && r.hookPoint == p && r.movement.Some?
            && HookDefaultsRestored(r.movement.value)
            && r.movement.value.velocity == WithZ(m.velocity, 0.0)
            && r.movement.value.brakingFrictionFactor == m.brakingFrictionFactor
            && r.movement.value.pendingLaunch == m.pendingLaunch
            && r.(hookPoint := c.hookPoint, hookMaxRopeLength := c.hookMaxRopeLength, movement := c.movement) == c
  {
    var hooked := DoHookStart(c, Some(p), actorLocation, size);
    assert hooked.movement.value.mode == Flying;
  }

  /** An input DoMove caches as nearly zero gives no steering on the next hooked tick. */
  lemma DoMoveFeedsSteering(c: Character, right: real, forward: real, rotate: Vec -> Vec, influence: real,
                            deltaTime: real, size: Lengths)
    requires IsSize(size)
    ensures Abs(right) <= KindaSmallNumber && Abs(forward) <= KindaSmallNumber ==>
              Steering(DoMove(c, right, forward).lastMovementInput, rotate, influence, deltaTime, size) == Zero
  {
  }
}
