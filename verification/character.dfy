/**
 * State of the traversal character (ATemporalDashCharacter): the fields the
 * jump, dash, hook and wall-slide logic reads and writes, the editor tuning
 * values with their clamp ranges, and the constructor defaults.
 */
module Character {
  import opened Wrappers
  import opened Vectors

  /** The movement modes the traversal logic switches between. */
  datatype MovementMode = Walking | Falling | Flying

  /**
   * The part of UCharacterMovementComponent the core touches. `pendingLaunch`
   * is the final velocity a LaunchCharacter call has queued for the next
   * movement update.
   */
  datatype MoveComp = MoveComp(
    velocity: Vec,
    mode: MovementMode,
    groundFriction: real,
    brakingDecelerationWalking: real,
    brakingFrictionFactor: real,
    gravityScale: real,
    pendingLaunch: Option<Vec>)

  /** UCharacterMovementComponent::IsMovingOnGround. */
  predicate IsMovingOnGround(m: MoveComp)
  {
    m.mode == Walking
  }

  /**
   * UCharacterMovementComponent::SetMovementMode. A change of mode runs
   * OnMovementModeChanged, which on entering walking from another mode keeps
   * only the horizontal velocity; setting the current mode again does nothing.
   */
  function SetMovementMode(m: MoveComp, mode: MovementMode): (r: MoveComp)
    ensures r.mode == mode
    ensures mode == Walking && m.mode != Walking ==> r.velocity == WithZ(m.velocity, 0.0)
    ensures mode != Walking || m.mode == Walking ==> r.velocity == m.velocity
    ensures r.(mode := m.mode, velocity := m.velocity) == m
  {
    if mode == m.mode then m
    else if mode == Walking then m.(mode := mode, velocity := WithZ(m.velocity, 0.0))
    else m.(mode := mode)
  }

  /**
   * ACharacter::LaunchCharacter: the queued velocity is `launch`, with the
   * current horizontal velocity added unless `xyOverride`, and the current
   * vertical velocity added unless `zOverride`.
   */
  function Launch(m: MoveComp, launch: Vec, xyOverride: bool, zOverride: bool): (r: MoveComp)
    ensures r.pendingLaunch.Some?
    ensures xyOverride ==> r.pendingLaunch.value.x == launch.x && r.pendingLaunch.value.y == launch.y
    ensures !xyOverride ==>
              r.pendingLaunch.value.x == m.velocity.x + launch.x && r.pendingLaunch.value.y == m.velocity.y + launch.y
    ensures r.pendingLaunch.value.z == (if zOverride then launch.z else m.velocity.z + launch.z)
    ensures r.(pendingLaunch := m.pendingLaunch) == m
  {
    var xy := if xyOverride then launch else Add(launch, m.velocity);
    var z := if zOverride then launch.z else launch.z + m.velocity.z;
    m.(pendingLaunch := Some(Vec(xy.x, xy.y, z)))
  }

  /** Editor-tunable values of the dash, hook and wall slide. */
  datatype Tuning = Tuning(
    dashDistance: real,
    dashDuration: real,
    dashCooldown: real,
    hookMaxRange: real,
    hookPullStrength: real,
    hookSteeringInfluence: real,
    hookMinDetachDistance: real,
    hookMaxVelocity: real,
    wallRunSpeed: real,
    wallGravity: real,
    wallRunCameraRoll: real)

  /** The ClampMin / ClampMax ranges the editor enforces on the tuning values. */
  predicate ValidTuning(t: Tuning)
  {
    && t.dashDistance >= 0.0
    && t.dashDuration >= 0.01
    && t.dashCooldown >= 0.0
    && t.hookMaxRange >= 0.0
    && t.hookPullStrength >= 0.0
    && 0.0 <= t.hookSteeringInfluence <= 1.0
    && t.hookMinDetachDistance >= 0.0
    && t.hookMaxVelocity >= 0.0
  }

  /**
   * The header's default tuning. The wall-run values are not declared in the
   * header revision and are supplied by the caller.
   */
  function DefaultTuning(wallRunSpeed: real, wallGravity: real, wallRunCameraRoll: real): (t: Tuning)
    ensures ValidTuning(t)
    ensures t.dashDistance / t.dashDuration == 3000.0
  {
    Tuning(600.0, 0.2, 1.0, 5000.0, 3000.0, 0.3, 150.0, 4000.0,
           wallRunSpeed, wallGravity, wallRunCameraRoll)
  }

  /**
   * The character's traversal state. `movement` is None when there is no
   * movement component, `control` is the controller's control rotation (None
   * without a controller), and `dashCooldownActive` stands for the dash
   * cooldown timer.
   */
  datatype Character = Character(
    movement: Option<MoveComp>,
    control: Option<Rotator>,
    jumpPressed: bool,
    maxJumpCount: int,
    jumpCount: int,
    secondJumpStrength: real,
    isDashing: bool,
    dashCooldownActive: bool,
    dashDirection: Vec,
    dashTimeRemaining: real,
    dashInitialSpeed: real,
    isHooked: bool,
    hookPoint: Vec,
    hookMaxRopeLength: real,
    lastMovementInput: Vec,
    isWallSliding: bool,
    currentWallNormal: Vec,
    targetWallRunRoll: real)

  /** The jump counter stays within the budget. */
  predicate JumpCountInRange(c: Character)
  {
    0 <= c.jumpCount <= c.maxJumpCount
  }

  /** The constructed character, around the engine-created movement component. */
  function NewCharacter(movement: Option<MoveComp>, control: Option<Rotator>): (c: Character)
    ensures c.maxJumpCount == 2 && c.jumpCount == 0 && c.secondJumpStrength == 600.0
    ensures !c.isDashing && !c.isHooked && !c.isWallSliding && !c.dashCooldownActive
    ensures JumpCountInRange(c)
    ensures c.movement == movement && c.control == control
  {
    Character(movement, control, false, 2, 0, 600.0,
              false, false, Zero, 0.0, 0.0,
              false, Zero, 0.0, Zero,
              false, Zero, 0.0)
  }

  /** DoMove: caches the input for hook steering, with or without a controller. */
  function DoMove(c: Character, right: real, forward: real): (r: Character)
    ensures r.lastMovementInput == Vec(right, forward, 0.0)
    ensures r.(lastMovementInput := c.lastMovementInput) == c
  {
    c.(lastMovementInput := Vec(right, forward, 0.0))
  }

  /** DoMove keeps only the latest input. */
  lemma DoMoveLastWins(c: Character, right: real, forward: real, right2: real, forward2: real)
    ensures DoMove(DoMove(c, right, forward), right2, forward2) == DoMove(c, right2, forward2)
  {
  }
}
