/**
 * The dash of ATemporalDashCharacter: activation guards, the direction
 * fallback, the linear decay of the dash speed applied each tick, and the
 * restoration of the movement defaults when the dash ends.
 */
module Dash {
  import opened Wrappers
  import opened Vectors
  import opened Character

  /** The movement settings EndDash restores: friction 8, braking 2000, friction factor 2, gravity 1. */
  predicate DashDefaultsRestored(m: MoveComp)
  {
    m.groundFriction == 8.0 && m.brakingDecelerationWalking == 2000.0
    && m.brakingFrictionFactor == 2.0 && m.gravityScale == 1.0
  }

  /** The movement settings of a running dash: no friction, braking or gravity. */
  predicate DashSettings(m: MoveComp)
  {
    m.groundFriction == 0.0 && m.brakingDecelerationWalking == 0.0
    && m.brakingFrictionFactor == 0.0 && m.gravityScale == 0.0
  }

  /**
   * The state a running dash keeps: time left within the duration, the
   * initial speed distance / duration, and a horizontal direction that is a
   * unit vector or zero.
   */
  predicate DashRunning(c: Character, t: Tuning)
    requires t.dashDuration >= 0.01
  {
    c.isDashing ==>
      && 0.0 < c.dashTimeRemaining <= t.dashDuration
      && c.dashInitialSpeed == t.dashDistance / t.dashDuration
      && c.dashDirection.z == 0.0
      && (c.dashDirection == Zero || NormSq(c.dashDirection) == 1.0)
  }

  /**
   * The direction DoDashStart hands to PerformDash: the last movement input,
   * else the controller's forward axis (`forwardOf` is the engine's rotation
   * matrix X axis), else the actor's forward vector.
   */
  function DashInputDirection(lastInput: Vec, control: Option<Rotator>, forwardOf: Rotator -> Vec,
                              actorForward: Vec): (r: Vec)
    ensures !IsNearlyZero(lastInput) ==> r == lastInput
    ensures IsNearlyZero(lastInput) && control.Some? && !IsNearlyZero(forwardOf(control.value)) ==>
              r == forwardOf(control.value)
    ensures IsNearlyZero(lastInput) && (control.None? || IsNearlyZero(forwardOf(control.value))) ==>
              r == actorForward
  {
    var d := lastInput;
    var d := if IsNearlyZero(d) && control.Some? then forwardOf(control.value) else d;
    if IsNearlyZero(d) then actorForward else d
  }

  /**
   * The horizontal unit direction (or zero) a dash runs along: the safe normal
   * of the given direction, or the actor's forward vector when that is nearly
   * zero, flattened and normalized again.
   */
  function HorizontalDirection(direction: Vec, actorForward: Vec, size: Lengths): (r: Vec)
    requires IsSize(size)
    ensures r.z == 0.0
    ensures r == Zero || NormSq(r) == 1.0
    // r points along the flattened chosen direction, and is zero exactly when that is too short to normalize
    ensures var d := if IsNearlyZero(SafeNormal(direction, size)) then actorForward else SafeNormal(direction, size);
            && (r == Zero <==> NormSq(Vec(d.x, d.y, 0.0)) < SmallNumber)
            && exists k: real :: k >= 0.0 && r == Scale(Vec(d.x, d.y, 0.0), k)
  {
    var dir := SafeNormal(direction, size);
    var dir := if IsNearlyZero(dir) then actorForward else dir;
    var flat := Vec(dir.x, dir.y, 0.0);
    var r := SafeNormal(flat, size);
    var k :| k >= 0.0 && r == Scale(flat, k);
    r
  }

  /**
   * PerformDash: stores the horizontal direction, the full duration and the
   * initial speed, zeroes friction, braking and gravity, and starts the
   * cooldown (a timer with a non-positive delay is cleared instead).
   */
  function PerformDash(c: Character, t: Tuning, direction: Vec, actorForward: Vec, size: Lengths): (r: Character)
    requires IsSize(size) && t.dashDuration >= 0.01
    ensures r.isDashing && r.dashTimeRemaining == t.dashDuration
    ensures r.dashInitialSpeed == t.dashDistance / t.dashDuration
    ensures r.dashDirection == HorizontalDirection(direction, actorForward, size)
    ensures r.dashCooldownActive <==> t.dashCooldown > 0.0
    ensures r.movement.Some? <==> c.movement.Some?
    ensures r.movement.Some? ==> DashSettings(r.movement.value)
                                 && r.movement.value.velocity == c.movement.value.velocity
                                 && r.movement.value.mode == c.movement.value.mode
    // of the movement component only friction, braking and gravity change
    ensures r.movement.Some? ==>
              r.movement.value.(groundFriction := c.movement.value.groundFriction,
                                brakingDecelerationWalking := c.movement.value.brakingDecelerationWalking,
                                brakingFrictionFactor := c.movement.value.brakingFrictionFactor,
                                gravityScale := c.movement.value.gravityScale) == c.movement.value
    ensures r.(isDashing := c.isDashing, dashDirection := c.dashDirection,
               dashTimeRemaining := c.dashTimeRemaining, dashInitialSpeed := c.dashInitialSpeed,
               dashCooldownActive := c.dashCooldownActive, movement := c.movement) == c
  {
    var movement := match c.movement
      case None => None
      case Some(m) => Some(m.(groundFriction := 0.0, brakingDecelerationWalking := 0.0,
                              brakingFrictionFactor := 0.0, gravityScale := 0.0));
    var speed := t.dashDistance / t.dashDuration;
    c.(dashDirection := HorizontalDirection(direction, actorForward, size),
       dashTimeRemaining := t.dashDuration,
       dashInitialSpeed := speed,
       isDashing := true,
       movement := movement,
       dashCooldownActive := t.dashCooldown > 0.0)
  }

  /** A started dash is a running dash. */
  lemma PerformDashStartsRun(c: Character, t: Tuning, direction: Vec, actorForward: Vec, size: Lengths)
    requires IsSize(size) && t.dashDuration >= 0.01
    ensures DashRunning(PerformDash(c, t, direction, actorForward, size), t)
  {
    var r := PerformDash(c, t, direction, actorForward, size);
    assert r.dashInitialSpeed == t.dashDistance / t.dashDuration;
  }

  /**
   * DoDashStart: nothing while dashing, without a movement component, or while
   * the cooldown runs; otherwise a dash along the fallback direction.
   */
  function DoDashStart(c: Character, t: Tuning, lastInput: Vec, forwardOf: Rotator -> Vec,
                       actorForward: Vec, size: Lengths): (r: Character)
    requires IsSize(size) && t.dashDuration >= 0.01
    ensures c.isDashing || c.movement.None? || c.dashCooldownActive ==> r == c
    ensures !c.isDashing && c.movement.Some? && !c.dashCooldownActive ==>
              r == PerformDash(c, t, DashInputDirection(lastInput, c.control, forwardOf, actorForward),
                               actorForward, size)
    ensures !c.isDashing && c.movement.Some? && !c.dashCooldownActive ==> r.isDashing
  {
    if c.isDashing || c.movement.None? || c.dashCooldownActive then c
    else PerformDash(c, t, DashInputDirection(lastInput, c.control, forwardOf, actorForward), actorForward, size)
  }

  /** A dash cannot start while the cooldown runs, whatever direction is given. */
  lemma NoDashDuringCooldown(c: Character, t: Tuning, lastInput: Vec, forwardOf: Rotator -> Vec,
                             actorForward: Vec, size: Lengths)
    requires IsSize(size) && t.dashDuration >= 0.01 && c.dashCooldownActive
    ensures DoDashStart(c, t, lastInput, forwardOf, actorForward, size).movement == c.movement
    ensures DoDashStart(c, t, lastInput, forwardOf, actorForward, size).isDashing == c.isDashing
  {
  }

  /** EndDash: the flag and the remaining time are cleared and the movement defaults restored. */
  function EndDash(c: Character): (r: Character)
    ensures !r.isDashing && r.dashTimeRemaining == 0.0
    ensures r.movement.Some? <==> c.movement.Some?
    ensures r.movement.Some? ==> DashDefaultsRestored(r.movement.value)
                                 && r.movement.value.velocity == c.movement.value.velocity
    // of the movement component only the restored settings change
    ensures r.movement.Some? ==>
              r.movement.value.(groundFriction := c.movement.value.groundFriction,
                                brakingDecelerationWalking := c.movement.value.brakingDecelerationWalking,
                                brakingFrictionFactor := c.movement.value.brakingFrictionFactor,
                                gravityScale := c.movement.value.gravityScale) == c.movement.value
    ensures r.(isDashing := c.isDashing, dashTimeRemaining := c.dashTimeRemaining, movement := c.movement) == c
  {
    var movement := match c.movement
      case None => None
      case Some(m) => Some(m.(groundFriction := 8.0, brakingDecelerationWalking := 2000.0,
                              brakingFrictionFactor := 2.0, gravityScale := 1.0));
    c.(isDashing := false, dashTimeRemaining := 0.0, movement := movement)
  }

  /**
   * The cooldown timer running out. Its callback, ResetDashCooldown, does
   * nothing; only the timer stops being active.
   */
  function DashCooldownElapsed(c: Character): (r: Character)
    ensures !r.dashCooldownActive
    ensures r.(dashCooldownActive := c.dashCooldownActive) == c
  {
    c.(dashCooldownActive := false)
  }

  /** The dash speed at a given remaining time: linear from the initial speed down to zero. */
  function DashSpeed(initialSpeed: real, remaining: real, duration: real): (s: real)
    requires duration > 0.0 && initialSpeed >= 0.0 && 0.0 < remaining <= duration
    ensures 0.0 < s <= initialSpeed || (initialSpeed == 0.0 && s == 0.0)
    ensures s * duration == initialSpeed * remaining
  {
    var alpha := remaining / duration;
    assert 0.0 < alpha <= 1.0;
    initialSpeed * alpha
  }

  /**
   * The dash part of Tick: while dashing with time left, the horizontal
   * velocity is the dash direction at the linearly decayed speed, the
   * vertical velocity is kept, the remaining time drops by `deltaTime`, and
   * the dash ends once no time is left.
   */
  function Tick(c: Character, t: Tuning, deltaTime: real): (r: Character)
    requires t.dashDuration >= 0.01
    ensures !(c.isDashing && c.dashTimeRemaining > 0.0) ==> r == c
    ensures c.isDashing && c.dashTimeRemaining > 0.0 ==>
              && (r.isDashing <==> c.dashTimeRemaining - deltaTime > 0.0)
              && (r.isDashing ==> r.dashTimeRemaining == c.dashTimeRemaining - deltaTime)
              && (!r.isDashing ==> r.dashTimeRemaining == 0.0
                                   && (r.movement.Some? ==> DashDefaultsRestored(r.movement.value)))
              && (r.movement.Some? <==> c.movement.Some?)
              && (r.movement.Some? ==>
                    var s := c.dashInitialSpeed * (c.dashTimeRemaining / t.dashDuration);
                    r.movement.value.velocity ==
                      Vec(c.dashDirection.x * s, c.dashDirection.y * s, c.movement.value.velocity.z))
    // mid-dash only the velocity of the movement component changes
    ensures r.isDashing && r.movement.Some? ==>
              r.movement.value.(velocity := c.movement.value.velocity) == c.movement.value
    // the tick that ends the dash also restores the settings, and nothing else
    ensures !r.isDashing && r.movement.Some? ==>
              r.movement.value.(velocity := c.movement.value.velocity,
                                groundFriction := c.movement.value.groundFriction,
                                brakingDecelerationWalking := c.movement.value.brakingDecelerationWalking,
                                brakingFrictionFactor := c.movement.value.brakingFrictionFactor,
                                gravityScale := c.movement.value.gravityScale) == c.movement.value
    ensures r.(isDashing := c.isDashing, dashTimeRemaining := c.dashTimeRemaining, movement := c.movement) == c
  {
    if c.isDashing && c.dashTimeRemaining > 0.0 then
      var alpha := c.dashTimeRemaining / t.dashDuration;
      var speed := c.dashInitialSpeed * alpha;
      var dashVelocity := Scale(c.dashDirection, speed);
      var movement := match c.movement
        case None => None
        case Some(m) => Some(m.(velocity := WithZ(dashVelocity, m.velocity.z)));
      var c' := c.(movement := movement, dashTimeRemaining := c.dashTimeRemaining - deltaTime);
      if c'.dashTimeRemaining <= 0.0 then EndDash(c') else c'
    else
      c
  }

  /** A tick keeps the dash state well formed for a non-negative delta time. */
  lemma TickKeepsDashRunning(c: Character, t: Tuning, deltaTime: real)
    requires t.dashDuration >= 0.01 && DashRunning(c, t) && deltaTime >= 0.0
    ensures DashRunning(Tick(c, t, deltaTime), t)
  {
  }

  /**
   * A tick of a running dash moves horizontally at a speed no greater than
   * the initial speed, and keeps the vertical velocity.
   */
  lemma TickSpeedBounded(c: Character, t: Tuning, deltaTime: real)
    requires ValidTuning(t) && DashRunning(c, t) && c.isDashing && c.movement.Some?
    ensures var v := Tick(c, t, deltaTime).movement.value.velocity;
            var s := DashSpeed(c.dashInitialSpeed, c.dashTimeRemaining, t.dashDuration);
            && v.x == c.dashDirection.x * s && v.y == c.dashDirection.y * s
            && NormSq(Vec(v.x, v.y, 0.0)) <= c.dashInitialSpeed * c.dashInitialSpeed
            && v.z == c.movement.value.velocity.z
  {
    QuotientNonNegative(t.dashDistance, t.dashDuration);
    var s := DashSpeed(c.dashInitialSpeed, c.dashTimeRemaining, t.dashDuration);
    var v := Tick(c, t, deltaTime).movement.value.velocity;
    assert v == Vec(c.dashDirection.x * s, c.dashDirection.y * s, c.movement.value.velocity.z);
    assert NormSq(Vec(v.x, v.y, 0.0)) <= c.dashInitialSpeed * c.dashInitialSpeed by {
      assert Vec(v.x, v.y, 0.0) == Scale(c.dashDirection, s);
      ScaledDirectionBound(c.dashDirection, s, c.dashInitialSpeed);
    }
  }

  lemma QuotientNonNegative(a: real, b: real)
    requires a >= 0.0 && b > 0.0
    ensures a / b >= 0.0
  {
  }

  /** A unit-or-zero direction scaled by a speed within the bound has squared norm within the bound's square. */
  lemma ScaledDirectionBound(d: Vec, s: real, bound: real)
    requires d == Zero || NormSq(d) == 1.0
    requires 0.0 <= s <= bound
    ensures NormSq(Scale(d, s)) <= bound * bound
  {
    NormSqScale(d, s);
    SquareMonotone(s, bound);
  }

  /** With the default tuning a dash starts at 3000 units per second. */
  lemma DefaultDashSpeed(c: Character, direction: Vec, actorForward: Vec, size: Lengths,
                         wallRunSpeed: real, wallGravity: real, wallRunCameraRoll: real)
    requires IsSize(size)
    ensures var t := DefaultTuning(wallRunSpeed, wallGravity, wallRunCameraRoll);
            PerformDash(c, t, direction, actorForward, size).dashInitialSpeed == 3000.0
  {
  }
}
