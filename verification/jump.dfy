/**
 * The jump counter of ATemporalDashCharacter: grounded jump, wall launch,
 * air jump, and the reset on landing.
 */
module Jump {
  import opened Wrappers
  import opened Vectors
  import opened Character
  import WallSlide

  /**
   * DoJumpStart. `sinRoll` is the engine's sin(|TargetWallRunRoll|), left
   * uninterpreted. The grounded check dereferences the movement component
   * unconditionally.
   */
  function DoJumpStart(c: Character, sinRoll: real): (r: Character)
    requires c.movement.Some?
    ensures r.movement.Some?
    // grounded: the engine jump is pressed and one jump is counted, whatever came before
    ensures IsMovingOnGround(c.movement.value) ==>
              r == c.(jumpPressed := true, jumpCount := 1)
    // wall launch: the slide ends, falling mode, one jump counted
    ensures !IsMovingOnGround(c.movement.value) && c.isWallSliding ==>
              && !r.isWallSliding && r.jumpCount == 1
              && r.movement.value.mode == Falling
              && r.movement.value.velocity == WithZ(c.movement.value.velocity, 0.0)
              && r.movement.value.pendingLaunch.Some?
              && r.(isWallSliding := c.isWallSliding, jumpCount := c.jumpCount, movement := c.movement) == c
              && r.movement.value.(velocity := c.movement.value.velocity, mode := c.movement.value.mode,
                                   pendingLaunch := c.movement.value.pendingLaunch) == c.movement.value
    // air jump: only with budget left, exactly one more jump
    ensures !IsMovingOnGround(c.movement.value) && !c.isWallSliding && c.jumpCount < c.maxJumpCount ==>
              && r.jumpCount == c.jumpCount + 1
              && r.movement.value.velocity == WithZ(c.movement.value.velocity, 0.0)
              && r.movement.value.pendingLaunch ==
                   Some(Vec(c.movement.value.velocity.x, c.movement.value.velocity.y, c.secondJumpStrength))
              && r.(jumpCount := c.jumpCount, movement := c.movement) == c
              && r.movement.value.(velocity := c.movement.value.velocity,
                                   pendingLaunch := c.movement.value.pendingLaunch) == c.movement.value
    ensures !IsMovingOnGround(c.movement.value) && !c.isWallSliding && c.jumpCount >= c.maxJumpCount ==>
              r == c
  {
    var m := c.movement.value;
    if IsMovingOnGround(m) then
      c.(jumpPressed := true, jumpCount := 1)
    else if c.isWallSliding then
      var stilled := c.(movement := Some(m.(velocity := WithZ(m.velocity, 0.0))));
      var wallPush := Scale(c.currentWallNormal, c.secondJumpStrength * 2.0 * sinRoll);
      var upPush := Scale(Up, c.secondJumpStrength);
      var launchDirection := Add(wallPush, upPush);
      var stopped := WallSlide.StopWallSliding(stilled);
      var launched := stopped.(movement := Some(Launch(stopped.movement.value, launchDirection, false, true)));
      launched.(jumpCount := 1)
    else if c.jumpCount < c.maxJumpCount then
      var stilled := m.(velocity := WithZ(m.velocity, 0.0));
      var launched := Launch(stilled, Vec(0.0, 0.0, c.secondJumpStrength), false, true);
      c.(movement := Some(launched), jumpCount := c.jumpCount + 1)
    else
      c
  }

  /**
   * The wall launch adds the push away from the wall to the horizontal
   * velocity and sets the vertical velocity to the launch's own vertical
   * component, which is exactly SecondJumpStrength for a horizontal wall normal.
   */
  lemma WallLaunchVelocity(c: Character, sinRoll: real)
    requires c.movement.Some? && !IsMovingOnGround(c.movement.value) && c.isWallSliding
    ensures var k := c.secondJumpStrength * 2.0 * sinRoll;
            var v := c.movement.value.velocity;
            var launch := DoJumpStart(c, sinRoll).movement.value.pendingLaunch;
            && launch.Some?
            && launch.value.x == v.x + c.currentWallNormal.x * k
            && launch.value.y == v.y + c.currentWallNormal.y * k
            && launch.value.z == c.currentWallNormal.z * k + c.secondJumpStrength
    ensures c.currentWallNormal.z == 0.0 ==>
              DoJumpStart(c, sinRoll).movement.value.pendingLaunch.value.z == c.secondJumpStrength
  {
    var m := c.movement.value;
    var stilled := c.(movement := Some(m.(velocity := WithZ(m.velocity, 0.0))));
    var stopped := WallSlide.StopWallSliding(stilled);
    var k := c.secondJumpStrength * 2.0 * sinRoll;
    var launchDirection := Add(Scale(c.currentWallNormal, k), Scale(Up, c.secondJumpStrength));
    var launched := Launch(stopped.movement.value, launchDirection, false, true);
    var r := DoJumpStart(c, sinRoll);
    assert r.movement.value.pendingLaunch.value.z == launched.pendingLaunch.value.z;
    assert r.movement.value.pendingLaunch.value.x == launched.pendingLaunch.value.x;
    assert r.movement.value.pendingLaunch.value.y == launched.pendingLaunch.value.y;
  }

  /** Landed: the counter returns to zero. */
  function Landed(c: Character): (r: Character)
    ensures r.jumpCount == 0
    ensures c.maxJumpCount >= 0 ==> JumpCountInRange(r)
    ensures r.(jumpCount := c.jumpCount) == c
  {
    c.(jumpCount := 0)
  }

  /** DoJumpEnd: StopJumping releases the engine jump. */
  function DoJumpEnd(c: Character): (r: Character)
    ensures !r.jumpPressed
    ensures r.(jumpPressed := c.jumpPressed) == c
  {
    c.(jumpPressed := false)
  }

  /** With a budget of at least one jump, DoJumpStart keeps the counter in range. */
  lemma JumpStartKeepsCountInRange(c: Character, sinRoll: real)
    requires c.movement.Some? && c.maxJumpCount >= 1 && JumpCountInRange(c)
    ensures JumpCountInRange(DoJumpStart(c, sinRoll))
  {
  }

  /**
   * The scenario with the default budget of two: a grounded jump, one air
   * jump, a refused third jump, and the reset on landing.
   */
  lemma DoubleJumpScenario(c0: Character, sinRoll: real)
    requires c0.movement.Some? && c0.movement.value.mode == Walking
    requires c0.maxJumpCount == 2 && c0.jumpCount == 0 && !c0.isWallSliding
    ensures var c1 := DoJumpStart(c0, sinRoll);
            var air := c1.(movement := Some(c1.movement.value.(mode := Falling)));
            var c2 := DoJumpStart(air, sinRoll);
            var c3 := DoJumpStart(c2, sinRoll);
            && c1.jumpCount == 1 && c2.jumpCount == 2 && c3 == c2 && Landed(c3).jumpCount == 0
  {
  }
}
