# Hair chain and player locomotion of a 2D platformer, in Dafny

This project models the discrete core of a Unity platformer whose character has a long,
physically simulated hair chain: it can shoot the hair, let it wrap around grab points, and
hang from it. Three components are covered, each as pure functions over immutable records.

- **`HairPart`** (`hair_part.dfy`). One segment's record: its `Id`, its own `Mass`, and the
  mass of its rigid body, which the `Mass` setter mirrors. The record also carries the two
  fields of the `ActiveHairPart` subclass that the chain reads and writes: the rigid-body
  constraint and the `ActivatedWrapFromOther` flag.
- **`HairChain`** and **`HairManager`** (`hair_chain.dfy`, `hair_manager.dfy`). The chain
  controller models:
  - the id and mass set-up in `Awake`;
  - clamped neighbour lookup, where the self-answer at either end is the walks' stop sentinel;
  - freeze propagation towards the root;
  - the two recursive mass walks around a held segment, and resetting the masses;
  - the three-wide activation window;
  - the closest-usable-segment scan;
  - the throttled wrap check;
  - the flag outcomes of the shoot and retract sequences.
- **`PlayerController`** (`player_controller.dfy`). One step of the player's locomotion:
  - grounding classification with coyote time;
  - the jump buffer;
  - the jump input callback and the jump force;
  - gravity shaping;
  - facing and flipping.

The chain is a `seq<Segment>`. Index 0 is the root at the player and the last index is the
tip. A segment's `Transform` is identified with its index. Two facts about the scene are
preconditions, because the code relies on them without checking:

- every part's `Id` equals its index;
- the parts carrying `ActiveHairPart` are the first `active` segments, so an index into the
  active-part list is also an index into the segment array.

Time, ground contact, input direction, the velocity, whether the hair is being pulled in, and
the direction towards the hair are inputs. Single-precision floats are modelled as exact
reals, so `+ 0.5`, `+ 20`, the gravity offsets 3 and 5 and the thresholds 0.05, 0.2, 0.1 and −0.01 are exact.

Two behaviours of the code are stated as the code has them.

- The jump buffer almost never fires on landing. It is gated on `m_HaveJumped`, and the
  frame update clears that flag in the first frame in which the player is seen falling.
  - A press made once the player is already falling is ignored outright
    (`FallingPressIsIgnored`).
  - A press made while still rising is buffered, but the second falling frame recomputes
    the buffered flag as false. So once a fall has lasted two frames, landing fires no
    buffered jump, however recent the press (`RisingPressLostAfterTwoFallingFrames`).
  - Only a landing while still rising, or in the first falling frame, uses the buffer.
  - Conversely, only a fall clears `m_HaveJumped`. A player who reaches the ground while it
    is still set cannot start an ordinary jump: a press is buffered instead and launches at
    three times the jump force (`GroundedPressWithJumpFlagLaunchesTriple`).

  The field comments speak of buffering a press made "while falling".
- In a physics tick where the held boost runs, it sets the vertical velocity after the
  buffered jump. A buffered jump in that tick therefore ends at the plain jump force, not at
  three times it (the contract of `FixedUpdate`).

## Model

| member | source | states |
|---|---|---|
| HairPart.SetId | SMG/Assets/Scripts/HairPart.cs:10 | after assigning `Id = v` the getter answers `v`; mass, body mass and the active-part fields are unchanged |
| HairPart.SetMass | SMG/Assets/Scripts/HairPart.cs:11 | after assigning `Mass = v` the getter answers `v` and the rigid body's mass is `v`; `Id` is unchanged |
| HairPart.SettersCommute | SMG/Assets/Scripts/HairPart.cs:10-11 | assigning `Id` and `Mass` in either order gives the same part |
| HairPart.SetMassLastWriteWins | SMG/Assets/Scripts/HairPart.cs:11 | a second `Mass` assignment completely replaces the first |
| Common.SqDistance | SMG/Assets/Scripts/HairManager.cs:322 | the distance measure is non-negative, and zero when the two points are equal |
| HairChain.Awake | SMG/Assets/Scripts/HairManager.cs:90-118 | the array holds all children but the last; segment `i` gets id `i` and mass and body mass `2 + 0.5·i`; constraint and flag are untouched; with no children the allocation fails |
| HairChain.ResetPartsMass | SMG/Assets/Scripts/HairManager.cs:339-346 | afterwards every body mass equals the part's own mass, and nothing else changes |
| HairChain.ResetRestoresInitialProfile | SMG/Assets/Scripts/HairManager.cs:339-346 | on a chain set up by `Awake`, resetting puts body mass `2 + 0.5·i` back on every segment |
| HairChain.ResetForgetsBodyMasses | SMG/Assets/Scripts/HairManager.cs:339-346 | two chains that differ only in body masses are equal after resetting |
| HairChain.NextPart | SMG/Assets/Scripts/HairManager.cs:365-375 | stays in range; answers the segment itself exactly at the root, otherwise its root-ward neighbour |
| HairChain.PrevPart | SMG/Assets/Scripts/HairManager.cs:377-387 | stays in range; answers the segment itself exactly at the tip, otherwise its tip-ward neighbour |
| HairChain.NeighboursInverse | SMG/Assets/Scripts/HairManager.cs:365-387 | away from the boundary the two lookups undo each other |
| HairChain.GetLastHairPart | SMG/Assets/Scripts/HairManager.cs:297-300 | answers the unique segment that is its own tip-ward neighbour; fails on an empty chain |
| HairChain.FreezePartsAfter | SMG/Assets/Scripts/HairManager.cs:348-363 | every part below `partId` ends `FreezeAll`; parts at or above `partId` and every other field are untouched; ids stay indices |
| HairChain.FreezeIdempotent | SMG/Assets/Scripts/HairManager.cs:348-363 | freezing below the same id a second time changes nothing |
| HairChain.ChangePartsMassAfter | SMG/Assets/Scripts/HairManager.cs:271-283 | each segment `j` below the held one gets body mass `playerMass + 20·(held − j)`; the held one and those above are untouched |
| HairChain.ChangePartsMassBefore | SMG/Assets/Scripts/HairManager.cs:285-295 | every segment above the held one gets body mass 10; the held one and those below are untouched |
| HairChain.PlayerHoldingPart | SMG/Assets/Scripts/HairManager.cs:265-269 | only body masses change: +20 per hop towards the root, the held part unchanged, 10 towards the tip |
| HairChain.ResetUndoesHolding | SMG/Assets/Scripts/HairManager.cs:265-295 | resetting after a hold gives the same chain as resetting without it |
| HairChain.SetWrapFromOther | SMG/Assets/Scripts/HairManager.cs:391-399 | the countdown loop sets the flag on exactly the non-negative indices in its range and leaves every other segment unchanged |
| HairChain.ActivateNextPart | SMG/Assets/Scripts/HairManager.cs:389-400 | the flag is raised on exactly indices `max(0, k−3) .. k−1`; every other segment is unchanged |
| HairChain.DeactivateNextPart | SMG/Assets/Scripts/HairManager.cs:402-413 | the flag is lowered on exactly indices `max(0, k−3) .. k−1`; every other segment is unchanged |
| HairChain.DeactivateCancelsActivate | SMG/Assets/Scripts/HairManager.cs:389-413 | deactivating right after activating the same window gives what deactivating alone gives |
| HairChain.GetClosestPart | SMG/Assets/Scripts/HairManager.cs:302-332 | the answer is null iff no segment is eligible, where eligible means the scan reaches it before the first unskipped segment lying 0.2 below the point, and it is neither a frozen active part nor below; otherwise the answer is an eligible segment, no farther than any other eligible one and strictly nearer than every earlier one |
| HairManager.HighestFrozen | SMG/Assets/Scripts/HairManager.cs:243-254 | the scan finds a frozen part iff one exists below the bound, and then the highest one |
| HairManager.CheckForWrap | SMG/Assets/Scripts/HairManager.cs:228-263 | stowed: only resets the timer and reports false. Within 0.05 of the last test: no change. Otherwise: wrapped iff an active part other than the last is frozen; each such part has every part below it frozen afterwards; "wrapped" is reported only then; a segment changes only by becoming frozen, and only below the highest frozen part |
| HairManager.WrapCheckStable | SMG/Assets/Scripts/HairManager.cs:256-260 | a later second evaluation freezes nothing new |
| HairManager.FinishShoot | SMG/Assets/Scripts/HairManager.cs:176 | the end of shooting raises `HasShotHair` and changes nothing else |
| HairManager.BeginRetract | SMG/Assets/Scripts/HairManager.cs:181 | the start of retracting raises the pulling flag and changes nothing else |
| HairManager.FinishRetract | SMG/Assets/Scripts/HairManager.cs:210-211 | the end of retracting lowers both flags and changes nothing else |
| HairManager.RetractEndsWrapping | SMG/Assets/Scripts/HairManager.cs:230-236 | after a shoot-retract cycle both flags are down and the next wrap check reports false without touching the segments |
| PlayerController.DefaultCoyoteScenario | SMG/Assets/Scripts/PlayerController.cs:50-60 | for any configuration keeping the declared initial values (coyote time 0.1), a player who leaves the ground at `t0` is `Coyote` at `t0 + 0.05` and `Falling` at `t0 + 0.1` |
| PlayerController.CoyoteTime | SMG/Assets/Scripts/PlayerController.cs:424-454 | `Grounded` iff on the ground, which records the time and re-arms the safe edge; otherwise `Coyote` iff less than the coyote time has passed, else `Falling`; never `Jumpable`; in the air nothing changes |
| PlayerController.CoyoteTimeRepeatable | SMG/Assets/Scripts/PlayerController.cs:424-454 | classifying twice in one tick gives the same state and player |
| PlayerController.CoyoteWindow | SMG/Assets/Scripts/PlayerController.cs:441-452 | after leaving the ground at `t0`, the state at `t` is `Coyote` iff `t − t0` is below the coyote time, else `Falling` |
| PlayerController.Flip | SMG/Assets/Scripts/PlayerController.cs:400-406 | facing is negated and the sprite's x scale is mirrored; nothing else changes |
| PlayerController.FlipInvolution | SMG/Assets/Scripts/PlayerController.cs:400-406 | flipping twice restores the player |
| PlayerController.FlipKeepsScaleMatching | SMG/Assets/Scripts/PlayerController.cs:400-406 | if the scale's sign agrees with facing, it still does after a flip |
| PlayerController.FaceTowards | SMG/Assets/Scripts/PlayerController.cs:161-168 | ends facing right for a positive direction and left for a negative one; a zero direction changes nothing; otherwise at most one flip |
| PlayerController.Update | SMG/Assets/Scripts/PlayerController.cs:142-183 | buffered iff the player had jumped and the buffer is younger than 0.2. The jump is forgotten iff airborne with `vy ≤ −0.01`. Facing follows the input direction, or the hair's x direction while pulling, and is unchanged for 0. The scale stays in step with facing, and nothing else changes |
| PlayerController.FallingPressIsIgnored | SMG/Assets/Scripts/PlayerController.cs:287-302 | a press made while already falling changes nothing and leaves no buffered jump |
| PlayerController.RisingPressLostAfterTwoFallingFrames | SMG/Assets/Scripts/PlayerController.cs:146-159 | a press made while rising (`vy > 0`) is stored in the buffer, yet after two airborne frames falling at any `v ≤ −0.01` it is no longer buffered, and a grounded tick afterwards keeps the velocity `v` unless the boost is running |
| PlayerController.GroundedPressWithJumpFlagLaunchesTriple | SMG/Assets/Scripts/PlayerController.cs:146-159 | if `haveJumped` is still set on the ground, a grounded press does not arm the boost but is buffered, and the next grounded tick launches at `3·jumpForce` unless an older boost is running |
| PlayerController.ApplyJumpForce | SMG/Assets/Scripts/PlayerController.cs:312-321 | vertical velocity becomes jump force plus bonus; the jump is marked made; buffer flag, buffer time and last-grounded time are cleared; nothing else changes |
| PlayerController.Jump | SMG/Assets/Scripts/PlayerController.cs:279-310 | pulling: only disarms the boost. After a jump: a press records the buffer time, and a release with the boost armed resets its start to 0 and leaves it armed. Before a jump: a press while grounded or in coyote time arms the boost from now, and being grounded re-arms the safe edge, which is otherwise unchanged. It never changes `haveJumped`, velocity or facing |
| PlayerController.ReleaseEndsBoost | SMG/Assets/Scripts/PlayerController.cs:305-309 | after a release, once the clock passes the max jump time, the still-armed boost no longer changes the velocity |
| PlayerController.Lerp | SMG/Assets/Scripts/PlayerController.cs:388 | for `t` in [0, 1] the result is `a + (b − a)·t`; it is the start for `t ≤ 0` and the end for `t ≥ 1`, and always lies between the end points |
| PlayerController.ApplyGravity | SMG/Assets/Scripts/PlayerController.cs:369-398 | Grounded: `g`. Coyote without a jump: `g+3`; with a jump: unchanged. Falling and not faster than `g−0.1`: `g`. Falling faster: exactly `max(scale, g+5)` plus one ramp step, which is `fallingSpeed·Clamp01(fixedDeltaTime·fallingAcceleration)`; with `fallingSpeed ≥ 0` this lies between `max(scale, g+5)` and that plus `fallingSpeed`. `Jumpable` changes nothing, and only the gravity scale ever changes |
| PlayerController.FallingTickAddsStep | SMG/Assets/Scripts/PlayerController.cs:385-388 | one fast-falling tick above `g + 5` adds exactly one ramp step and leaves the velocity alone |
| PlayerController.FallingRampIsLinear | SMG/Assets/Scripts/PlayerController.cs:385-388 | once the scale has reached `g + 5`, `n` fast-falling ticks in a row add exactly `n` equal ramp steps; nothing caps the scale |
| PlayerController.FixedUpdate | SMG/Assets/Scripts/PlayerController.cs:185-205 | gravity as `ApplyGravity` gives it. A buffered jump fires with double bonus exactly when grounded or in coyote time. The boost fires exactly while younger than the max jump time, and overrides the velocity. When either fires, the jump is marked and buffers are cleared; otherwise they are unchanged. Grounded re-arms the safe edge; in the air it is unchanged |
| PlayerController.BufferedJumpFiresOnLanding | SMG/Assets/Scripts/PlayerController.cs:193-196 | a press after jumping, followed by a frame within 0.2 and a grounded tick, launches the player at three times the jump force unless the boost is running |
| PlayerController.StaleBufferDoesNotFire | SMG/Assets/Scripts/PlayerController.cs:146-153 | a press older than 0.2 fires nothing on the next tick |

## Left out

- `ShootHair`, `RetractHair`, `Shoot` and `DelayWrap` are timed sequences built on
  `Task.Delay`, transforms, quaternions and mouse/camera queries. Only their flag outcomes are
  modelled (`FinishShoot`, `BeginRetract`, `FinishRetract`). The 300 ms wrap-intent delay and
  the `Wrap` event to the parts are not modelled.
- `ApplyTailPhysics`, `ApplyMovement` and all rigid-body dynamics are physics-engine
  behaviour. Velocities and positions are inputs.
- `SafeEdge` and `IsGrounded` are tilemap and overlap queries. Ground contact is a boolean
  input, and `Update` is modelled from the step after `SafeEdge`. `SafeEdge` may therefore
  also clear `useSafeEdge` and move the player within the same frame, and that is not modelled.
- Animator booleans, gizmos, the singleton set-up, component lookup in `Start`, and the
  `HairIsStretching` subscription are presentation or plumbing.
- `ActiveHairPart` is not part of this model beyond its constraint and its
  `ActivatedWrapFromOther` flag. Its contact and grace-timer behaviour is unseen.
- `HairChain.Awake`: assumes every segment carries a `HairPart`. A child with neither
  component keeps its old id and mass in `HairManager.Awake`.
- `Common.SqDistance`: compares squared distances, not `Vector3.magnitude`. This is
  equivalent for ordering, but float rounding of the square root is not modelled.
- `HairChain.FreezePartsAfter`: requires `partId` to be at most the number of active
  parts. `HairManager` would throw an index-out-of-range error at `m_ActiveHairParts[partId - 1]`
  otherwise. The visible caller, `CheckForWrap` (HairManager.cs:258), passes an id below the
  active count.
- `HairChain.ActivateNextPart`: requires `partId` to be at most the number of active parts.
  `HairManager` would throw at `m_ActiveHairParts[i]` otherwise; the callers are in `ActiveHairPart`,
  which is not part of this model, and are expected to pass their own id.
- `HairChain.DeactivateNextPart`: requires `partId` to be at most the number of active
  parts, for the same reason.
- Float rounding is left out everywhere: all quantities are exact reals.
- The player controller and the hair manager come from different revisions: one reads
  `IsPullringHair`, the other exposes `IsPullingHair`. The two are modelled independently,
  with "pulling" as an input to the player.
