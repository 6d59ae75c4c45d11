# TemporalDash core, modelled in Dafny

This project models four engine-independent pieces of the TemporalDash game:

- **the shooter character's weapon inventory** (`AShooterCharacter`): owned weapons with a cursor, equip by index, cyclic switch, add-at-most-once, discard with cursor repair, and the HP rule of `TakeDamage`;
- **the weapon's ammunition machine** (`AShooterWeapon`): loaded bullets, spare magazines, the firing flag, and the one refire timer, which either fires again or sends the semi-auto cooldown notice;
- **the traversal character's locomotion** (`ATemporalDashCharacter`): the jump counter with its wall launch, the linearly decaying dash, the grappling hook's per-tick velocity shaping, and wall sliding with its camera roll;
- **the overlapped card strip** (`UOverlappedCardWidget`): three parallel lists kept in step, and the right-to-left layout with a clamped overlap.

Every operation is a pure function over immutable datatypes. The only exception is the layout loop, which is a method proved equal to its functional definition.

The engine enters only as parameters:

- floats are `real`;
- vectors are triples of `real`;
- `FVector::Size` and `FMath::InvSqrt` are a pair of functions (`Vectors.Lengths`) constrained only by the square and reciprocal facts;
- rotations, `FInterpTo`, `FVector::Rotation`, `sin`, world time, trace results, `IsA`, spawn and widget-creation success, and the owner's player control are all supplied by the caller;
- timers are state: a flag for the dash cooldown, and a pending action with its due time for the weapon's refire timer.

Files (one module each):

- `wrappers.dfy`: `Option`.
- `vectors.dfy`: vector algebra, lengths, `GetSafeNormal`, `Normalize`, `Dist`.
- `character.dfy`: character state, movement component, tuning, constructor, `DoMove`.
- `jump.dfy`, `dash.dfy`, `hook.dfy`, `wallslide.dfy`: the locomotion pieces.
- `shooter_character.dfy`: inventory and damage.
- `shooter_weapon.dfy`: ammunition and refire.
- `card_strip.dfy`: the card strip.

## Model

| member | source | states |
|---|---|---|
| Vectors.SafeNormal | Source/TemporalDash/TemporalDashCharacter_Dash.cpp:69-76 | GetSafeNormal: zero below the squared-length tolerance, a unit vector at or above it, and always a non-negative multiple of the input |
| Vectors.Normalized | Source/TemporalDash/TemporalDashCharacter_WallSlide.cpp:52-53 | Normalize: a unit vector above the tolerance, the input unchanged at or below it, always a positive multiple of the input |
| Vectors.Dist | Source/TemporalDash/TemporalDashCharacter_Hook.cpp:96 | FVector::Dist is non-negative and its square is the squared distance |
| Character.NewCharacter | Source/TemporalDash/TemporalDashCharacter.cpp:48-51 | the constructed character has a jump budget of 2, count 0 and second-jump strength 600, so its count is in range; dashing and hooked start false as the header initialises them, and sliding and the dash cooldown start false or inactive by default construction |
| Character.DefaultTuning | Source/TemporalDash/TemporalDashCharacter.h:88-139 | the header defaults satisfy the editor clamp ranges (duration at least 0.01, steering in [0,1], the rest non-negative) and give an initial dash speed of 3000 |
| Character.SetMovementMode | Source/TemporalDash/TemporalDashCharacter_Hook.cpp:228 | only the mode changes, except that entering walking from another mode zeroes the vertical velocity; setting the current mode again changes nothing |
| Character.Launch | Source/TemporalDash/TemporalDashCharacter.cpp:166-168 | LaunchCharacter queues the launch velocity: horizontal parts are added to the current velocity unless overridden, the vertical part replaces it when overridden |
| Character.DoMove | Source/TemporalDash/TemporalDashCharacter.cpp:116-119 | the movement input is cached as (Right, Forward, 0), with or without a controller, and nothing else changes |
| Character.DoMoveLastWins | Source/TemporalDash/TemporalDashCharacter.cpp:116-119 | a second DoMove overwrites the first: only the latest input is kept |
| Jump.DoJumpStart | Source/TemporalDash/TemporalDashCharacter.cpp:129-189 | grounded: count becomes 1, whatever it was, and this takes priority over sliding; sliding: vertical velocity zeroed, slide ended, falling, count 1; in the air: exactly one more jump while budget remains, with the vertical velocity replaced by the jump strength; otherwise no change; in each branch only the counter, the slide flag and the velocity, mode and queued launch of the movement component change |
| Jump.WallLaunchVelocity | Source/TemporalDash/TemporalDashCharacter.cpp:141-168 | the wall launch adds the push away from the wall to the horizontal velocity, and for a horizontal wall normal the vertical launch speed is exactly SecondJumpStrength |
| Jump.JumpStartKeepsCountInRange | Source/TemporalDash/TemporalDashCharacter.cpp:132-187 | with a budget of at least one, a jump keeps 0 <= JumpCount <= MaxJumpCount |
| Jump.DoubleJumpScenario | Source/TemporalDash/TemporalDashCharacter.cpp:132-187 | with budget 2: the ground jump counts 1, the air jump 2, a third request changes nothing, landing resets to 0 |
| Jump.Landed | Source/TemporalDash/TemporalDashCharacter.cpp:197-203 | landing resets the jump counter to 0 and changes nothing else |
| Jump.DoJumpEnd | Source/TemporalDash/TemporalDashCharacter.cpp:191-195 | releasing jump only releases the engine jump |
| Dash.DashInputDirection | Source/TemporalDash/TemporalDashCharacter_Dash.cpp:49-62 | direction fallback order: last movement input, else the controller's forward axis, else the actor's forward vector, each skipped when nearly zero |
| Dash.HorizontalDirection | Source/TemporalDash/TemporalDashCharacter_Dash.cpp:69-76 | the stored dash direction has Z = 0, is a unit vector or zero, points along the flattened safe normal of the input (the actor forward vector when that is nearly zero), and is zero exactly when that flattened vector is too short to normalize |
| Dash.PerformDash | Source/TemporalDash/TemporalDashCharacter_Dash.cpp:67-96 | dashing, remaining time = duration, initial speed = distance / duration, friction, braking, friction factor and gravity zeroed, velocity untouched, cooldown running exactly when its delay is positive; no other field of the movement component (mode, velocity, queued launch) changes |
| Dash.PerformDashStartsRun | Source/TemporalDash/TemporalDashCharacter_Dash.cpp:76-80 | a started dash satisfies the running-dash invariant (time left within the duration, horizontal unit-or-zero direction) |
| Dash.DoDashStart | Source/TemporalDash/TemporalDashCharacter_Dash.cpp:31-65 | no change while dashing, without a movement component or during cooldown; otherwise a dash along the fallback direction |
| Dash.NoDashDuringCooldown | Source/TemporalDash/TemporalDashCharacter_Dash.cpp:44-47 | during the cooldown no direction whatever changes velocity or the dashing flag |
| Dash.EndDash | Source/TemporalDash/TemporalDashCharacter_Dash.cpp:98-111 | the flag is cleared, the remaining time zeroed, and friction 8, braking 2000, friction factor 2, gravity 1 restored; no other field of the movement component changes |
| Dash.DashCooldownElapsed | Source/TemporalDash/TemporalDashCharacter_Dash.cpp:113-116 | the cooldown callback does nothing beyond the timer ceasing to be active |
| Dash.DashSpeed | Source/TemporalDash/TemporalDashCharacter_Dash.cpp:125-126 | the decayed speed is proportional to the remaining time and never above the initial speed |
| Dash.Tick | Source/TemporalDash/TemporalDashCharacter_Dash.cpp:118-148 | not dashing: nothing changes; dashing: horizontal velocity = direction times initial speed times remaining/duration, vertical velocity kept, remaining time drops by DeltaTime, and EndDash's defaults are in place exactly when no time remains; mid-dash only the velocity of the movement component changes, and on the last tick only the velocity and the restored settings |
| Dash.TickSpeedBounded | Source/TemporalDash/TemporalDashCharacter_Dash.cpp:122-137 | a running dash's tick moves horizontally along the dash direction no faster than the initial speed, and keeps the vertical velocity |
| Dash.TickKeepsDashRunning | Source/TemporalDash/TemporalDashCharacter_Dash.cpp:122-146 | for a non-negative DeltaTime a tick keeps the running-dash invariant: time left within the duration while dashing, the dash over otherwise |
| Dash.DefaultDashSpeed | Source/TemporalDash/TemporalDashCharacter.h:89-94 | with the defaults (600 over 0.2 s) a dash starts at 3000 |
| Hook.DoHookStart | Source/TemporalDash/TemporalDashCharacter_Hook.cpp:11-33 | no change while hooked or on a trace miss; otherwise hooked at the hit location with the rope length its distance |
| Hook.PerformHook | Source/TemporalDash/TemporalDashCharacter_Hook.cpp:91-120 | hooked, rope length = distance from the actor to the hook point, flying, gravity 0.4, friction and braking 0, velocity and any queued launch kept |
| Hook.DoHookEnd | Source/TemporalDash/TemporalDashCharacter_Hook.cpp:35-44 | ends the hook only while hooked; otherwise no change |
| Hook.EndHook | Source/TemporalDash/TemporalDashCharacter_Hook.cpp:213-229 | unhooked, gravity 1, friction 8, braking 2000, walking; the switch to walking from another mode zeroes the vertical velocity, the horizontal velocity, friction factor and queued launch are kept |
| Hook.HookStartEstablishesInvariant | Source/TemporalDash/TemporalDashCharacter_Hook.cpp:11-33 | attaching from an unhooked character gives a hooked character with a non-negative rope length in flying mode, and a start keeps that invariant |
| Hook.HookTickKeepsInvariant | Source/TemporalDash/TemporalDashCharacter_Hook.cpp:122-211 | a hooked tick and DoHookEnd keep the hook invariant (non-negative rope length, flying while hooked) |
| Hook.HookEndAfterStart | Source/TemporalDash/TemporalDashCharacter_Hook.cpp:11-44 | attaching then releasing restores gravity 1, friction 8, braking 2000 and walking, and leaves everything else as before except the dropped vertical velocity and the recorded hook point and rope length |
| Hook.Decompose | Source/TemporalDash/TemporalDashCharacter_Hook.cpp:152-155 | the normal and tangent parts add back to the velocity; for a unit direction the tangent is perpendicular to it |
| Hook.Steering | Source/TemporalDash/TemporalDashCharacter_Hook.cpp:160-172 | no steering for a nearly-zero input; steering is always horizontal; a flattened input long enough to normalize gives a force whose squared length is exactly (HookSteeringInfluence * 800 * DeltaTime)², a shorter one is scaled by that factor without normalizing |
| Hook.ComposeAsWrittenParts | Source/TemporalDash/TemporalDashCharacter_Hook.cpp:158-192 | outside the rope branch the result is pulled normal plus steered tangent; inside it, the pulled normal plus the tangent before steering, so steering is dropped and the recomputed normal unused |
| Hook.PullAlongDirection | Source/TemporalDash/TemporalDashCharacter_Hook.cpp:153-158 | for a unit direction the pull adds exactly HookPullStrength * DeltaTime to the speed toward the hook point |
| Hook.RopeBranchKeepsOutwardSpeed | Source/TemporalDash/TemporalDashCharacter_Hook.cpp:175-192 | as written, past the rope length the outward speed after the tick is the outward speed before less the pull |
| Hook.RopeBranchCounterexample | Source/TemporalDash/TemporalDashCharacter_Hook.cpp:175-192 | moving away at 100 with pull 30, the composed velocity still moves away at 70 |
| Hook.Compose | Source/TemporalDash/TemporalDashCharacter_Hook.cpp:174-192 | within the rope length both rules compose the same velocity; past it the intended rule leaves no component away from the hook point |
| Hook.ComposeIntended | Source/TemporalDash/TemporalDashCharacter_Hook.cpp:174-192 | past the rope length the velocity has no component away from the hook point: outward motion is cut to zero speed along the rope and the tangent kept; within the rope, or moving inward, the pulled and steered velocity is kept as is |
| Hook.ClampVelocity | Source/TemporalDash/TemporalDashCharacter_Hook.cpp:194-199 | the magnitude is at most HookMaxVelocity, a velocity within the bound is kept, and the result is a non-negative multiple of the input (direction preserved, never amplified past the bound) |
| Hook.ClampKeepsInward | Source/TemporalDash/TemporalDashCharacter_Hook.cpp:194-199 | the clamp never turns an inward or tangential velocity outward |
| Hook.HookVelocity | Source/TemporalDash/TemporalDashCharacter_Hook.cpp:152-199 | the shaped velocity is within HookMaxVelocity; under the intended rope rule it never points away from the hook point past the rope length |
| Hook.UpdateHookMovement | Source/TemporalDash/TemporalDashCharacter_Hook.cpp:122-211 | no change unless hooked with a movement component; below HookMinDetachDistance exactly EndHook (velocity not written); otherwise still hooked and only the velocity changes, to the shaped velocity toward the hook point |
| Hook.HookedVelocity | Source/TemporalDash/TemporalDashCharacter_Hook.cpp:146-202 | the velocity a hooked tick writes is within HookMaxVelocity, and under the intended rule past the rope length it has no component away from the hook point |
| Hook.DoMoveFeedsSteering | Source/TemporalDash/TemporalDashCharacter_Hook.cpp:160-172 | an input cached by DoMove as nearly zero gives no steering on the next hooked tick |
| Hook.HookTickVelocity | Source/TemporalDash/TemporalDashCharacter_Hook.cpp:141-202 | a hooked tick that does not detach leaves a velocity of magnitude at most HookMaxVelocity; under the intended rope rule, past the rope length it has no component away from the hook point |
| WallSlide.StartWallSliding | Source/TemporalDash/TemporalDashCharacter_WallSlide.cpp:9-24 | a null wall changes nothing; otherwise sliding, wall normal recorded, flying, Z velocity zeroed with X and Y kept |
| WallSlide.StopWallSliding | Source/TemporalDash/TemporalDashCharacter_WallSlide.cpp:26-40 | acts only while sliding: clears the flag and sets falling; otherwise no change |
| WallSlide.StopAfterStart | Source/TemporalDash/TemporalDashCharacter_WallSlide.cpp:9-40 | stopping after starting leaves the character not sliding and falling, with horizontal velocity kept, vertical velocity dropped and the wall normal recorded; nothing else changes |
| WallSlide.SlideTickKeepsSliding | Source/TemporalDash/TemporalDashCharacter_WallSlide.cpp:9-96 | a wall-slide tick after a start keeps sliding against the same wall in flying mode, and a later stop leaves the character falling |
| WallSlide.StopWallSlidingIdempotent | Source/TemporalDash/TemporalDashCharacter_WallSlide.cpp:29-35 | a second stop changes nothing |
| WallSlide.PlaneProject | Source/TemporalDash/TemporalDashCharacter_WallSlide.cpp:52 | the projection plus its normal part is the input, and is perpendicular to a unit normal |
| WallSlide.WallRunDirection | Source/TemporalDash/TemporalDashCharacter_WallSlide.cpp:47-53 | the run direction lies in the wall plane and is a unit vector when the projection is not tiny |
| WallSlide.WallVelocity | Source/TemporalDash/TemporalDashCharacter_WallSlide.cpp:57-67 | velocity = run direction * WallRunSpeed, Z lowered by WallGravity, pushed into the wall at 100 * DeltaTime: every component is given for any normal; along a unit run direction in the wall plane the speed is WallRunSpeed less its share of WallGravity, and into a horizontal unit wall it is 100 * DeltaTime |
| WallSlide.TargetRoll | Source/TemporalDash/TemporalDashCharacter_WallSlide.cpp:84-93 | -WallRunCameraRoll when forward points along Up x normal, else +WallRunCameraRoll; magnitude always WallRunCameraRoll |
| WallSlide.TargetRollNormalAlongY | Source/TemporalDash/TemporalDashCharacter_WallSlide.cpp:86-93 | forward +X beside a +Y wall normal rolls +WallRunCameraRoll |
| WallSlide.TargetRollNormalAgainstY | Source/TemporalDash/TemporalDashCharacter_WallSlide.cpp:86-93 | the mirrored wall (-Y) rolls the opposite way |
| WallSlide.HeadOnRollFollowsTurn | Source/TemporalDash/TemporalDashCharacter_WallSlide.cpp:76-93 | head-on into a -Y wall, the pre-turn forward +Y would give +WallRunCameraRoll, but any turned forward leaning toward +X gives -WallRunCameraRoll, so reading the forward vector after the turn matters |
| WallSlide.SetCameraRoll | Source/TemporalDash/TemporalDashCharacter_WallSlide.cpp:98-112 | only the roll of the control rotation moves; nothing without a controller |
| WallSlide.UpdateWallSliding | Source/TemporalDash/TemporalDashCharacter_WallSlide.cpp:42-96 | the facing target is the run direction's rotation with pitch 0, and the actor turns toward it; the velocity is the wall-run velocity along the forward direction before the turn projected onto the wall, so it runs along a unit wall at WallRunSpeed less its share of WallGravity and presses into a horizontal one at exactly 100 * DeltaTime; the camera roll side is read from the forward vector after the turn; only velocity and the control roll change |
| ShooterCharacter.NewInventory | Source/TemporalDash/Variant_Shooter/ShooterCharacter.cpp:16-23 | a new character owns no weapons and has none selected (no weapon, INDEX_NONE, the state the switch code at lines 111-116 tests for), and the inventory invariant holds |
| ShooterCharacter.EquipWeaponByIndex | Source/TemporalDash/Variant_Shooter/ShooterCharacter.cpp:346-375 | an invalid index clears the selection to none / INDEX_NONE; the current weapon's index changes nothing; otherwise CurrentWeapon = OwnedWeapons[CurrentWeaponIndex] at the new index; the invariant is kept |
| ShooterCharacter.CRem | Source/TemporalDash/Variant_Shooter/ShooterCharacter.cpp:119 | the int32 `%` agrees with the mathematical remainder on a non-negative dividend and stays strictly within the divisor; on a negative dividend it is non-positive and differs from the dividend by a multiple of the divisor |
| ShooterCharacter.DoSwitchWeapon | Source/TemporalDash/Variant_Shooter/ShooterCharacter.cpp:107-125 | no change with fewer than two weapons; none selected equips index 0; otherwise (i+1) mod n; the invariant is kept |
| ShooterCharacter.SwitchOnce | Source/TemporalDash/Variant_Shooter/ShooterCharacter.cpp:115-124 | with a weapon selected among several, one switch keeps the weapons and the invariant and moves the cursor to the next index, wrapping from the last to 0 |
| ShooterCharacter.SwitchTimesCursor | Source/TemporalDash/Variant_Shooter/ShooterCharacter.cpp:115-124 | k switches move the cursor k steps forward with wrap-around |
| ShooterCharacter.SwitchTimesAdvances | Source/TemporalDash/Variant_Shooter/ShooterCharacter.cpp:107-125 | k switches advance the cursor by k modulo the weapon count |
| ShooterCharacter.SwitchCycle | Source/TemporalDash/Variant_Shooter/ShooterCharacter.cpp:107-125 | n switches with n weapons return to the starting weapon |
| ShooterCharacter.FindWeaponOfType | Source/TemporalDash/Variant_Shooter/ShooterCharacter.cpp:294-308 | null exactly when no owned weapon IsA the class; otherwise the first owned weapon, in OwnedWeapons order, that does |
| ShooterCharacter.AddWeaponClass | Source/TemporalDash/Variant_Shooter/ShooterCharacter.cpp:173-198 | no change when a weapon of the class is owned or the spawn fails; otherwise a new weapon is appended and equipped as the last element; the invariant is kept |
| ShooterCharacter.AddWeaponClassTwice | Source/TemporalDash/Variant_Shooter/ShooterCharacter.cpp:176-178 | adding the same class again changes nothing: never a second weapon of an owned type |
| ShooterCharacter.IndexOf | Source/TemporalDash/Variant_Shooter/ShooterCharacter.cpp:229-234 | the first position of the weapon, INDEX_NONE exactly when it is not owned |
| ShooterCharacter.RemoveAt | Source/TemporalDash/Variant_Shooter/ShooterCharacter.cpp:247 | TArray::RemoveAt drops the element at the index, the elements before it unmoved and those after shifted down by one |
| ShooterCharacter.RemoveAtKeepsInvariant | Source/TemporalDash/Variant_Shooter/ShooterCharacter.cpp:247 | removing one weapon keeps the rest distinct and drops exactly that weapon |
| ShooterCharacter.DiscardWeapon | Source/TemporalDash/Variant_Shooter/ShooterCharacter.cpp:220-292 | a null or unowned weapon changes nothing; otherwise exactly that element is removed with the others in order; the invariant is kept |
| ShooterCharacter.DiscardRepairsSelection | Source/TemporalDash/Variant_Shooter/ShooterCharacter.cpp:250-288 | discarding the current weapon empties the selection in an emptied list, else selects the removed index clamped to the last; discarding another weapon keeps the same weapon current |
| ShooterCharacter.TakeDamage | Source/TemporalDash/Variant_Shooter/ShooterCharacter.cpp:66-87 | at HP <= 0 returns 0 and changes nothing; otherwise HP drops by the damage, the damage is returned, and Die runs exactly when HP reaches <= 0 |
| ShooterCharacter.DieAtMostOnce | Source/TemporalDash/Variant_Shooter/ShooterCharacter.cpp:69-81 | over any run of hits Die runs at most once, never for a character already dead |
| ShooterWeapon.NewWeapon | Source/TemporalDash/Variant_Shooter/Weapons/ShooterWeapon.cpp:38-55 | RemainingMagazines = max(0, MaxMagazines - 1) with the MaxMagazines the constructor reads, so never negative; CurrentBullets = MagazineSize as read in BeginPlay; not firing, no timer |
| ShooterWeapon.NewWeaponRounds | Source/TemporalDash/Variant_Shooter/Weapons/ShooterWeapon.cpp:38-55 | with at least one magazine (as the constructor reads MaxMagazines), a new weapon holds MaxMagazines full magazines of rounds |
| ShooterWeapon.SetTimer | Source/TemporalDash/Variant_Shooter/Weapons/ShooterWeapon.cpp:229-234 | a positive delay schedules the action that long from now; otherwise the timer is cleared |
| ShooterWeapon.RunDry | Source/TemporalDash/Variant_Shooter/Weapons/ShooterWeapon.cpp:154-177 | out of ammunition: firing lowered, timer cleared; a player's weapon is queued for discard, any other owner's refilled to MagazineSize |
| ShooterWeapon.Fire | Source/TemporalDash/Variant_Shooter/Weapons/ShooterWeapon.cpp:138-236 | trigger released: no change; no bullet and no magazine: no shot, weapon runs dry; a reload takes exactly one magazine and the shot leaves MagazineSize - 1; a loaded shot takes exactly one bullet; the shot stops the weapon exactly when it is the last round (after any reload, no bullet and no spare magazine left), before TimeOfLastShot is written, and then a player's weapon is queued for discard and any other owner's refilled to MagazineSize; a shot that keeps firing leaves the discard flag alone; any other shot records its time and schedules Fire (full auto) or the cooldown notice (semi auto) one RefireRate later; magazines never increase; bullets stay within [0, MagazineSize] for MagazineSize >= 1 |
| ShooterWeapon.FireSpendsOneRound | Source/TemporalDash/Variant_Shooter/Weapons/ShooterWeapon.cpp:147-216 | each shot of a player's weapon spends exactly one of the remaining rounds (loaded plus spare magazines), and firing continues exactly while more than one was left, the weapon being queued for discard when it stops |
| ShooterWeapon.VolleySpendsRounds | Source/TemporalDash/Variant_Shooter/Weapons/ShooterWeapon.cpp:138-236 | a player's weapon with n rounds fires exactly n shots while the trigger is held and then stops |
| ShooterWeapon.VolleyWhenReleased | Source/TemporalDash/Variant_Shooter/Weapons/ShooterWeapon.cpp:141-144 | with the trigger released, any number of Fire calls change nothing |
| ShooterWeapon.StartFiring | Source/TemporalDash/Variant_Shooter/Weapons/ShooterWeapon.cpp:96-124 | an empty weapon changes nothing; more than RefireRate since the last shot fires at once; otherwise the flag is raised and only a full-auto weapon schedules the shot |
| ShooterWeapon.StopFiring | Source/TemporalDash/Variant_Shooter/Weapons/ShooterWeapon.cpp:126-136 | firing lowered and refire timer cleared; nothing else changes |
| ShooterWeapon.StopFiringSettles | Source/TemporalDash/Variant_Shooter/Weapons/ShooterWeapon.cpp:126-144 | stopping twice is stopping once, and a Fire after a stop does nothing |
| ShooterWeapon.TimerElapsed | Source/TemporalDash/Variant_Shooter/Weapons/ShooterWeapon.cpp:229-242 | the callback runs on a frame at or after the due time: a pending Fire runs at that frame time, so the shot is never recorded before it was due; a pending cooldown notifies the owner and changes nothing else |
| ShooterWeapon.FireKeepsSpacing | Source/TemporalDash/Variant_Shooter/Weapons/ShooterWeapon.cpp:219-235 | after Fire, any pending refire is due exactly RefireRate after the last recorded shot |
| ShooterWeapon.UntilReadyKeepsSpacing | Source/TemporalDash/Variant_Shooter/Weapons/ShooterWeapon.cpp:106-136 | with the corrected delay every operation keeps each pending refire due exactly RefireRate after the last shot, so a timer-driven shot comes at least RefireRate after the previous one, and exactly RefireRate when the frame falls on the due time |
| ShooterWeapon.SinceLastShotFiresEarly | Source/TemporalDash/Variant_Shooter/Weapons/ShooterWeapon.cpp:110-121 | as written, a pull 0.1 s after a shot with RefireRate 1 makes the timer due at 0.2 s, and a frame anywhere in [0.2, 1.0) fires the next shot less than RefireRate after the last |
| ShooterWeapon.UntilReadyWaitsFullPeriod | Source/TemporalDash/Variant_Shooter/Weapons/ShooterWeapon.cpp:110-121 | the corrected delay schedules that shot at 1.0 s |
| OverlappedCards.InsertAt | Source/TemporalDash/OverlappedCardWidget.cpp:38-40 | TArray::Insert puts the element at the index, with the elements before it unmoved and those after shifted by one |
| OverlappedCards.RemoveAt | Source/TemporalDash/OverlappedCardWidget.cpp:55-57 | TArray::RemoveAt drops the element at the index, the rest keep their order |
| OverlappedCards.SetNum | Source/TemporalDash/OverlappedCardWidget.cpp:85 | resizing keeps the existing prefix and pads with zeros |
| OverlappedCards.ContainerWidth | Source/TemporalDash/OverlappedCardWidget.cpp:90-101 | the canvas slot's width when positive, otherwise 1920 |
| OverlappedCards.NormalOverlap | Source/TemporalDash/OverlappedCardWidget.cpp:103-120 | one card: CardWidth; several: within [0.8, 1] CardWidth; 0.8 CardWidth for a wide container, CardWidth for a narrow one, and in between the ordinary gaps add up to the container width less two card widths |
| OverlappedCards.LayoutPositions | Source/TemporalDash/OverlappedCardWidget.cpp:122-136 | each position is its step left of the next card's position, or of the container's right edge for the last card |
| OverlappedCards.LayoutOrdered | Source/TemporalDash/OverlappedCardWidget.cpp:122-136 | with non-negative steps the positions are non-decreasing in index and at most the container width |
| OverlappedCards.ComputeTargets | Source/TemporalDash/OverlappedCardWidget.cpp:122-136 | the right-to-left loop computes exactly the layout positions |
| OverlappedCards.LayoutShape | Source/TemporalDash/OverlappedCardWidget.cpp:104-136 | for CardWidth >= 0: the highlighted card steps 0.9 CardWidth, others between 0 and 0.2 CardWidth, a lone unhighlighted card is placed at the container width itself, and positions are ordered and within the container |
| OverlappedCards.UpdateLayoutTargets | Source/TemporalDash/OverlappedCardWidget.cpp:82-137 | the positions are resized to the card count; without cards or container nothing more; otherwise they are the layout of the current cards and highlight; nothing else changes |
| OverlappedCards.NativeConstruct | Source/TemporalDash/OverlappedCardWidget.cpp:10-16 | the three lists start empty, the highlight untouched |
| OverlappedCards.InsertCard | Source/TemporalDash/OverlappedCardWidget.cpp:27-45 | no change without container, widget class, data or a created widget; otherwise the index is clamped to [0, N] and the card inserted there in all three lists, others in order, layout refreshed; the lists stay in step |
| OverlappedCards.RemoveCard | Source/TemporalDash/OverlappedCardWidget.cpp:47-60 | an out-of-range index or no container changes nothing; otherwise exactly that slot leaves all three lists, HighlightIndex untouched; the lists stay in step |
| OverlappedCards.RemoveUndoesInsert | Source/TemporalDash/OverlappedCardWidget.cpp:27-60 | removing at the index of an insertion gives back the widgets and data as before |
| OverlappedCards.ClearCards | Source/TemporalDash/OverlappedCardWidget.cpp:62-71 | all three lists empty and HighlightIndex = INDEX_NONE |
| OverlappedCards.HighlightCard | Source/TemporalDash/OverlappedCardWidget.cpp:73-80 | out of range changes nothing; in range sets HighlightIndex and refreshes the layout, and without a container leaves TargetPositions as they were |
| OverlappedCards.AppendCards | Source/TemporalDash/OverlappedCardWidget.cpp:21-24 | inserting each card at the end in turn keeps the three lists in step |
| OverlappedCards.AppendCardsAddsPresent | Source/TemporalDash/OverlappedCardWidget.cpp:21-24 | appending in turn adds exactly the non-null data objects, in order, and keeps the highlight |
| OverlappedCards.SetCards | Source/TemporalDash/OverlappedCardWidget.cpp:18-25 | given container, widget class and creation, the card data becomes the input with nulls dropped, in order; without them the strip is left empty; either way nothing is highlighted and the lists stay in step |

## Left out

- Engine setup: component creation, input binding, `BeginPlay` delegates, attachment, animation classes, `Destroy`, `MakeNoise`, projectile spawning, recoil, HUD broadcasts, debug drawing and on-screen messages. They have no behaviour to state here.
- `FindHookPoint`'s line trace is the `hit` argument of `Hook.DoHookStart`. `AHookableActor` is not consulted by the hook code and is not part of this model.
- `SlideableWallComponent` routing: wall enter and exit are direct calls to `WallSlide.StartWallSliding` and `WallSlide.StopWallSliding`.
- The engine's `RInterpTo`, `FVector::Rotation` and the rotation's forward vector are uninterpreted parameters of `WallSlide.UpdateWallSliding`; the actor rotation is an input and output of the tick, not a field of the character.
- `FInterpTo` is an uninterpreted parameter, and so is the card widget's `NativeTick` easing, which is left out entirely.
- `SetCardPosition` has no caller in the card code and is left out.
- `AShooterWeapon::HandleEmpty` has no caller in the firing code and is left out.
- The next-tick discard is the `discardQueued` flag. Its effect is `ShooterCharacter.DiscardWeapon`, applied by the caller.
- `IsEmpty` (declared in ShooterWeapon.h, which is not part of this model) is the `isEmpty` argument of `ShooterWeapon.StartFiring`.
- The initial `TimeOfLastShot` is the `initialShotTime` argument of `ShooterWeapon.NewWeapon`.
- ShooterCharacter.EquipWeaponByIndex: the previous weapon is deactivated, which runs ShooterWeapon.StopFiring on it. This is not modelled because the inventory holds only weapon ids, not weapon state.
- ShooterCharacter.DiscardWeapon: the discarded current weapon is deactivated, which runs ShooterWeapon.StopFiring on it. This is not modelled because the inventory holds only weapon ids, not weapon state.
- ShooterWeapon.NewWeapon: `maxMagazines` is the MaxMagazines the constructor reads. Whether a Blueprint override of it reaches RemainingMagazines depends on the engine's property initialisation and on ShooterWeapon.h, which is not part of this model.
- `Die`'s effects (weapon deactivation, score, respawn timer) and the HUD ratio of `TakeDamage` are left out. Only whether Die runs is modelled.
- Float precision and rounding: floats are exact reals, so the constants 0.8f, 0.1f, 0.4f and the like are taken as exact decimals.
- `SetMovementMode`'s other engine effects (the floor search on entering walking, the moving-base velocity hand-off on entering falling) are left out; only the vertical velocity drop on entering walking is modelled.
- ShooterCharacter.NewInventory: the INDEX_NONE cursor comes from ShooterCharacter.h, which is not part of this model.
- int32 overflow: bullets, magazines and indices are unbounded, which does not matter at the sizes the game uses.
- Hook.HookTickVelocity: does not state the direction of the written velocity beyond the intended rope rule and the clamp, because it depends on the uninterpreted control rotation through the steering.
- OverlappedCards.SetCards: widget creation success is one flag for the whole call rather than one per card.
- The tick dispatcher: the shown `Tick` drives only the dash. `Hook.UpdateHookMovement` and `WallSlide.UpdateWallSliding` are standalone steps.

## Findings

| source | as written | input that shows it | evidently intended | confidence | as-written member | corrected member |
|---|---|---|---|---|---|---|
| Source/TemporalDash/TemporalDashCharacter_Hook.cpp:175-192 | past the rope length, the outward part is removed from `Velocity` and the tangent recomputed, but `NewNormal` (from the unconstrained velocity) is what is composed, so no outward speed is removed; only the steering is dropped | hook along +X, velocity (-100,0,0), pull 30: the composed velocity still moves away at 70 | past the rope length, the velocity after the tick has no component away from the hook point | medium, not executed | Hook.RopeBranchCounterexample | Hook.ComposeIntended |
| Source/TemporalDash/Variant_Shooter/Weapons/ShooterWeapon.cpp:110-121 | an early trigger pull on a full-auto weapon schedules the shot after `TimeSinceLastShot` | RefireRate 1, last shot at 0, pull at 0.1: the timer is due at 0.2, and a frame anywhere in [0.2, 1.0) fires the next shot less than 1 s after the last | schedule it after `RefireRate - TimeSinceLastShot`, one full refire period after the last shot | medium, not executed | ShooterWeapon.SinceLastShotFiresEarly | ShooterWeapon.UntilReadyKeepsSpacing |

Both halves of each finding are in the model.

- `Hook.Compose` takes a `Composition` rule, and `Hook.UpdateHookMovement` takes the same rule. Under `Intended`, the tick never leaves the character moving away from the hook point past the rope length.
- `ShooterWeapon.StartFiring` takes a `RefireRule`. Under `UntilReady`, every pending refire is due exactly RefireRate after the last recorded shot.
