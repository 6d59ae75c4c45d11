/**
 * Wall sliding of ATemporalDashCharacter: entering and leaving a wall, the
 * per-tick run velocity along the wall, the facing target and the camera roll.
 */
module WallSlide {
  import opened Wrappers
  import opened Vectors
  import opened Character

  /**
   * StartWallSliding. `wall` is the wall's interaction normal, None for a null
   * wall component. The movement component is dereferenced without a check.
   */
  function StartWallSliding(c: Character, wall: Option<Vec>): (r: Character)
    requires wall.Some? ==> c.movement.Some?
    ensures wall.None? ==> r == c
    ensures wall.Some? ==>
              && r.isWallSliding && r.currentWallNormal == wall.value
              && r.movement.Some? && r.movement.value.mode == Flying
              && r.movement.value.velocity == WithZ(c.movement.value.velocity, 0.0)
              && r.movement.value.(mode := c.movement.value.mode, velocity := c.movement.value.velocity)
                   == c.movement.value
              && r.(isWallSliding := c.isWallSliding, currentWallNormal := c.currentWallNormal,
                    movement := c.movement) == c
  {
    if wall.None? then c
    else
      var m := SetMovementMode(c.movement.value, Flying);
      c.(isWallSliding := true, currentWallNormal := wall.value,
         movement := Some(m.(velocity := WithZ(m.velocity, 0.0))))
  }

  /** StopWallSliding: acts only while sliding; then falling mode. */
  function StopWallSliding(c: Character): (r: Character)
    requires c.isWallSliding ==> c.movement.Some?
    ensures !r.isWallSliding
    ensures !c.isWallSliding ==> r == c
    ensures c.isWallSliding ==>
              && r.movement.Some? && r.movement.value == c.movement.value.(mode := Falling)
              && r.(isWallSliding := true, movement := c.movement) == c
  {
    if c.isWallSliding then
      c.(isWallSliding := false, movement := Some(SetMovementMode(c.movement.value, Falling)))
    else
      c
  }

  /** A second StopWallSliding changes nothing. */
  lemma StopWallSlidingIdempotent(c: Character)
    requires c.isWallSliding ==> c.movement.Some?
    ensures StopWallSliding(StopWallSliding(c)) == StopWallSliding(c)
  {
  }

  /** FVector::VectorPlaneProject: `v` minus its projection onto the plane normal. */
  function PlaneProject(v: Vec, normal: Vec): (r: Vec)
    ensures NormSq(normal) == 1.0 ==> Dot(r, normal) == 0.0
    ensures Add(r, Scale(normal, Dot(v, normal))) == v
  {
    Sub(v, Scale(normal, Dot(v, normal)))
  }

  /**
   * The run direction: the forward vector projected onto the wall plane and
   * normalized. For a unit wall normal it lies in the wall plane.
   */
  function WallRunDirection(forward: Vec, normal: Vec, size: Lengths): (r: Vec)
    requires IsSize(size)
    ensures NormSq(normal) == 1.0 ==> Dot(r, normal) == 0.0
    ensures NormSq(PlaneProject(forward, normal)) > SmallNumber ==> NormSq(r) == 1.0
  {
    var p := PlaneProject(forward, normal);
    var r := Normalized(p, size);
    var k :| k > 0.0 && r == Scale(p, k);
    DotScale(p, k, normal);
    r
  }

  /**
   * The wall-run velocity: along the run direction at WallRunSpeed, lowered by
   * WallGravity, and pushed into the wall by 100 units per second.
   */
  function WallVelocity(runDir: Vec, normal: Vec, wallRunSpeed: real, wallGravity: real, deltaTime: real): (r: Vec)
    ensures NormSq(normal) == 1.0 && Dot(runDir, normal) == 0.0 && normal.z == 0.0 ==>
              Dot(r, normal) == -100.0 * deltaTime
    ensures r.z == runDir.z * wallRunSpeed - wallGravity - 100.0 * deltaTime * normal.z
    ensures r.x == runDir.x * wallRunSpeed - 100.0 * deltaTime * normal.x
    ensures r.y == runDir.y * wallRunSpeed - 100.0 * deltaTime * normal.y
    ensures NormSq(runDir) == 1.0 && Dot(runDir, normal) == 0.0 ==>
              Dot(r, runDir) == wallRunSpeed - wallGravity * runDir.z
  {
    var run := Scale(runDir, wallRunSpeed);
    var gravity := Vec(0.0, 0.0, -wallGravity);
    var push := Scale(normal, -100.0 * deltaTime);
    DotAdd(Add(run, gravity), push, normal);
    DotAdd(run, gravity, normal);
    DotScale(runDir, wallRunSpeed, normal);
    DotScale(normal, -100.0 * deltaTime, normal);
    DotAdd(Add(run, gravity), push, runDir);
    DotAdd(run, gravity, runDir);
    DotScale(runDir, wallRunSpeed, runDir);
    DotScale(normal, -100.0 * deltaTime, runDir);
    Add(Add(run, gravity), push)
  }

  /**
   * The target camera roll: -WallRunCameraRoll when the forward vector points
   * along Up x normal, +WallRunCameraRoll otherwise.
   */
  function TargetRoll(forward: Vec, normal: Vec, wallRunCameraRoll: real): (r: real)
    ensures Dot(forward, Cross(Up, normal)) > 0.0 ==> r == -wallRunCameraRoll
    ensures Dot(forward, Cross(Up, normal)) <= 0.0 ==> r == wallRunCameraRoll
    ensures Abs(r) == Abs(wallRunCameraRoll)
  {
    if Dot(forward, Cross(Up, normal)) > 0.0 then -wallRunCameraRoll else wallRunCameraRoll
  }

  /** Facing +X beside a wall whose normal is +Y, the target roll is +WallRunCameraRoll. */
  lemma TargetRollNormalAlongY(roll: real)
    ensures TargetRoll(Vec(1.0, 0.0, 0.0), Vec(0.0, 1.0, 0.0), roll) == roll
  {
    var side := Cross(Up, Vec(0.0, 1.0, 0.0));
    assert side == Vec(-1.0, 0.0, 0.0);
    assert Dot(Vec(1.0, 0.0, 0.0), side) == -1.0;
  }

  /** The mirrored wall, with normal -Y, gives the opposite roll. */
  lemma TargetRollNormalAgainstY(roll: real)
    ensures TargetRoll(Vec(1.0, 0.0, 0.0), Neg(Vec(0.0, 1.0, 0.0)), roll) == -roll
  {
  }

  /**
   * SetCameraRoll: only the roll of the control rotation moves, to the value
   * `interp` (the engine's FInterpTo) gives; nothing without a controller.
   */
  function SetCameraRoll(control: Option<Rotator>, targetRoll: real, interp: (real, real) -> real): (r: Option<Rotator>)
    ensures control.None? <==> r.None?
    ensures control.Some? ==>
              && r.value.pitch == control.value.pitch && r.value.yaw == control.value.yaw
              && r.value.roll == interp(control.value.roll, targetRoll)
  {
    match control
    case None => None
    case Some(rot) => Some(rot.(roll := interp(rot.roll, targetRoll)))
  }

  /**
   * What one wall-slide tick produces: the new character, the facing it turns
   * toward, and the actor rotation after this tick's step of that turn.
   */
  datatype WallSlideStep = WallSlideStep(character: Character, targetFacing: Rotator, actorRotation: Rotator)

  /**
   * UpdateWallSliding. `actorRotation` is the actor's rotation at the start
   * of the tick; `forwardOf` (the rotation's forward vector), `rotationOf`
   * (FVector::Rotation), `turn` (RInterpTo at speed 10 over this tick) and
   * `interp` (FInterpTo) are the engine's, uninterpreted. The run direction
   * is taken from the forward vector before the turn, the camera roll from
   * the forward vector after it.
   */
  function UpdateWallSliding(c: Character, t: Tuning, actorRotation: Rotator, forwardOf: Rotator -> Vec,
                             deltaTime: real, size: Lengths, rotationOf: Vec -> Rotator,
                             turn: (Rotator, Rotator) -> Rotator,
                             interp: (real, real) -> real): (r: WallSlideStep)
    requires IsSize(size) && c.movement.Some?
    ensures r.targetFacing.pitch == 0.0
    ensures r.targetFacing == rotationOf(WallRunDirection(forwardOf(actorRotation), c.currentWallNormal, size)).(pitch := 0.0)
    ensures r.actorRotation == turn(actorRotation, r.targetFacing)
    ensures r.character.movement.Some?
    ensures var n := c.currentWallNormal;
            NormSq(n) == 1.0 && n.z == 0.0 ==>
              Dot(r.character.movement.value.velocity, n) == -100.0 * deltaTime
    ensures r.character.movement.value.velocity ==
              WallVelocity(WallRunDirection(forwardOf(actorRotation), c.currentWallNormal, size), c.currentWallNormal,
                           t.wallRunSpeed, t.wallGravity, deltaTime)
    // along a unit wall, the run direction carries WallRunSpeed less its share of WallGravity
    ensures var n := c.currentWallNormal;
            var runDir := WallRunDirection(forwardOf(actorRotation), n, size);
            NormSq(n) == 1.0 && NormSq(PlaneProject(forwardOf(actorRotation), n)) > SmallNumber ==>
              Dot(r.character.movement.value.velocity, runDir) == t.wallRunSpeed - t.wallGravity * runDir.z
    // the roll side is read from the forward vector the turn leaves
    ensures r.character.control ==
              SetCameraRoll(c.control, TargetRoll(forwardOf(r.actorRotation), c.currentWallNormal, t.wallRunCameraRoll),
                            interp)
    ensures r.character.(movement := c.movement, control := c.control) == c
    ensures r.character.movement.value.(velocity := c.movement.value.velocity) == c.movement.value
  {
    var runDir := WallRunDirection(forwardOf(actorRotation), c.currentWallNormal, size);
    var velocity := WallVelocity(runDir, c.currentWallNormal, t.wallRunSpeed, t.wallGravity, deltaTime);
    var facing := rotationOf(runDir).(pitch := 0.0);
    var turned := turn(actorRotation, facing);
    var roll := TargetRoll(forwardOf(turned), c.currentWallNormal, t.wallRunCameraRoll);
    var c' := c.(movement := Some(c.movement.value.(velocity := velocity)),
                 control := SetCameraRoll(c.control, roll, interp));
    WallSlideStep(c', facing, turned)
  }

  /**
   * Running head-on into a wall with normal -Y: the forward vector before the
   * turn, +Y, gives +WallRunCameraRoll, while any turned forward vector with a
   * positive X part gives -WallRunCameraRoll. UpdateWallSliding reads the
   * roll from the turned one.
   */
  lemma HeadOnRollFollowsTurn(turned: Vec, roll: real)
    requires turned.x > 0.0
    ensures TargetRoll(Vec(0.0, 1.0, 0.0), Vec(0.0, -1.0, 0.0), roll) == roll
    ensures TargetRoll(turned, Vec(0.0, -1.0, 0.0), roll) == -roll
  {
    var side := Cross(Up, Vec(0.0, -1.0, 0.0));
    assert side == Vec(1.0, 0.0, 0.0);
    assert Dot(turned, side) == turned.x;
  }

  /**
   * StopWallSliding after StartWallSliding: not sliding and falling, with the
   * horizontal velocity kept, the vertical velocity dropped and the wall
   * normal recorded; nothing else changes.
   */
  lemma StopAfterStart(c: Character, normal: Vec)
    requires c.movement.Some?
    ensures var m := c.movement.value;
            StopWallSliding(StartWallSliding(c, Some(normal))) ==
              c.(isWallSliding := false, currentWallNormal := normal,
                 movement := Some(m.(mode := Falling, velocity := WithZ(m.velocity, 0.0))))
  {
  }

  /**
   * A wall-slide tick after StartWallSliding keeps sliding against the same
   * wall in flying mode, and a later stop leaves the slide falling.
   */
  lemma SlideTickKeepsSliding(c: Character, normal: Vec, t: Tuning, actorRotation: Rotator,
                              forwardOf: Rotator -> Vec, deltaTime: real, size: Lengths,
                              rotationOf: Vec -> Rotator, turn: (Rotator, Rotator) -> Rotator,
                              interp: (real, real) -> real)
    requires IsSize(size) && c.movement.Some?
    ensures var u := UpdateWallSliding(StartWallSliding(c, Some(normal)), t, actorRotation, forwardOf, deltaTime,
                                       size, rotationOf, turn, interp).character;
            && u.isWallSliding && u.currentWallNormal == normal && u.movement.value.mode == Flying
            && !StopWallSliding(u).isWallSliding && StopWallSliding(u).movement.value.mode == Falling
  {
  }
}
