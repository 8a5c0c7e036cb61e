/** The discrete part of the player's locomotion (`PlayerController`): ground classification
    with coyote time, the jump buffer, jump input and jump force, gravity shaping and facing.
    Ground contact, the clock, horizontal input, whether the hair is being pulled in and the
    direction towards the hair are inputs; physics is not modelled. */
module PlayerController {

  /** `PlayerController.GroundedState` (whose second value is spelled `Caoyote` there).
      `Jumpable` is declared but never produced. */
  datatype GroundedState = Grounded | Coyote | Jumpable | Falling

  /** A jump press is buffered for this long before landing. */
  const JumpBufferWindow: real := 0.2

  /** Vertical speed at or below which an airborne player counts as falling. */
  const FallingVelocity: real := -0.01

  /** The serialized tuning values. */
  datatype Config = Config(
    jumpForce: real,
    maxJumpTime: real,
    coyoteTime: real,
    fallingAcceleration: real,
    fallingSpeed: real,
    gravity: real,
    fixedDeltaTime: real)

  /** The tuning values `PlayerController` declares as field initialisers; the jump force,
      gravity and fixed time step come from the scene. */
  const DefaultMaxJumpTime: real := 0.5
  const DefaultCoyoteTime: real := 0.1
  const DefaultFallingAcceleration: real := 2.0
  const DefaultFallingSpeed: real := 0.2

  /** The configuration keeps the declared initial values. */
  predicate HasDeclaredDefaults(cfg: Config) {
    && cfg.maxJumpTime == DefaultMaxJumpTime
    && cfg.coyoteTime == DefaultCoyoteTime
    && cfg.fallingAcceleration == DefaultFallingAcceleration
    && cfg.fallingSpeed == DefaultFallingSpeed
  }

  /** The controller's fields, plus the rigid body's vertical velocity and gravity scale and
      the transform's horizontal scale. */
  datatype Player = Player(
    facingRight: bool,
    scaleX: real,
    haveJumped: bool,
    jumpBuffer: real,
    haveBufferedJump: bool,
    coyoteTimeOfFalling: real,
    useSafeEdge: bool,
    jumpStartTime: real,
    shouldApplyJumpForce: bool,
    velocityY: real,
    gravityScale: real)

  /** The input-system callback phase of a jump event. */
  datatype Phase = Started | Performed | Canceled

  // ---------------------------------------------------------------------------------------
  // Grounding
  // ---------------------------------------------------------------------------------------

  datatype Classified = Classified(state: GroundedState, player: Player)

  /** `CoyoteTime`: on the ground the player is `Grounded`, the last-grounded time becomes
      `now` and the safe-edge correction is re-armed; in the air the player is `Coyote`
      while less than the coyote time has passed since last grounded, `Falling` after. */
  function CoyoteTime(cfg: Config, p: Player, grounded: bool, now: real): (r: Classified)
    ensures r.state != Jumpable
    ensures r.state == Grounded <==> grounded
    ensures grounded ==> r.player == p.(coyoteTimeOfFalling := now, useSafeEdge := true)
    ensures !grounded ==> r.player == p
    ensures !grounded ==> (r.state == Coyote <==> now - p.coyoteTimeOfFalling < cfg.coyoteTime)
  {
    if grounded then
      var q := if !p.useSafeEdge then p.(useSafeEdge := true) else p;
      Classified(Grounded, q.(coyoteTimeOfFalling := now))
    else if now - p.coyoteTimeOfFalling < cfg.coyoteTime then
      Classified(Coyote, p)
    else
      Classified(Falling, p)
  }

  /** Whether a state lets a jump or a buffered jump start. */
  predicate CanJump(s: GroundedState)
  {
    s == Grounded || s == Coyote
  }

  /** Classifying twice in the same tick gives the same answer and changes nothing more. */
  lemma CoyoteTimeRepeatable(cfg: Config, p: Player, grounded: bool, now: real)
    ensures var c := CoyoteTime(cfg, p, grounded, now);
      CoyoteTime(cfg, c.player, grounded, now) == c
  {
  }

  /** Leaving the ground at `t0`, the player is `Coyote` until the coyote time has passed
      and `Falling` from then on. */
  lemma CoyoteWindow(cfg: Config, p: Player, t0: real, t: real)
    ensures var left := CoyoteTime(cfg, p, true, t0).player;
      CoyoteTime(cfg, left, false, t).state == (if t - t0 < cfg.coyoteTime then Coyote else Falling)
  {
  }

  /** With the declared defaults (coyote time 0.1), a player who leaves the ground at `t0`
      is still in coyote time at `t0 + 0.05` and falling at `t0 + 0.1`. */
  lemma DefaultCoyoteScenario(cfg: Config, p: Player, t0: real)
    requires HasDeclaredDefaults(cfg)
    ensures var left := CoyoteTime(cfg, p, true, t0).player;
      && CoyoteTime(cfg, left, false, t0 + 0.05).state == Coyote
      && CoyoteTime(cfg, left, false, t0 + 0.1).state == Falling
  {
  }

  // ---------------------------------------------------------------------------------------
  // Facing
  // ---------------------------------------------------------------------------------------

  /** `Flip`: turn around and mirror the sprite. */
  function Flip(p: Player): (r: Player)
    ensures r.facingRight == !p.facingRight && r.scaleX == -p.scaleX
    ensures r.(facingRight := p.facingRight, scaleX := p.scaleX) == p
  {
    var q := p.(facingRight := !p.facingRight);
    q.(scaleX := q.scaleX * -1.0)
  }

  /** Flipping twice is no change. */
  lemma FlipInvolution(p: Player)
    ensures Flip(Flip(p)) == p
  {
  }

  /** The sprite's horizontal scale points the way the player faces. */
  predicate ScaleMatchesFacing(p: Player)
  {
    (p.facingRight ==> p.scaleX > 0.0) && (!p.facingRight ==> p.scaleX < 0.0)
  }

  lemma FlipKeepsScaleMatching(p: Player)
    requires ScaleMatchesFacing(p)
    ensures ScaleMatchesFacing(Flip(p))
  {
  }

  /** The turn-around rule of `Update`: flip when facing against a non-zero direction. */
  function FaceTowards(p: Player, d: real): (r: Player)
    ensures d > 0.0 ==> r.facingRight
    ensures d < 0.0 ==> !r.facingRight
    ensures d == 0.0 ==> r == p
    ensures r == p || r == Flip(p)
  {
    if !p.facingRight && d > 0.0 then Flip(p)
    else if p.facingRight && d < 0.0 then Flip(p)
    else p
  }

  // ---------------------------------------------------------------------------------------
  // Frame update
  // ---------------------------------------------------------------------------------------

  /** `Update` after the safe-edge correction: refresh the buffered-jump flag, forget the jump
      once falling, and turn to face the horizontal input, or, while the hair is being pulled
      in, the hair (`hairDirX` is the x component of the direction towards it). */
  function Update(cfg: Config, p: Player, grounded: bool, now: real,
                  horizontalDirection: real, pulling: bool, hairDirX: real): (r: Player)
    ensures r.haveBufferedJump <==> p.haveJumped && now - p.jumpBuffer < JumpBufferWindow
    ensures r.haveJumped <==> p.haveJumped && (grounded || p.velocityY > FallingVelocity)
    ensures var d := if pulling then hairDirX else horizontalDirection;
      && (d > 0.0 ==> r.facingRight)
      && (d < 0.0 ==> !r.facingRight)
      && (d == 0.0 ==> r.facingRight == p.facingRight)
    ensures r.scaleX == (if r.facingRight == p.facingRight then p.scaleX else -p.scaleX)
    ensures ScaleMatchesFacing(p) ==> ScaleMatchesFacing(r)
    ensures r.(facingRight := p.facingRight, scaleX := p.scaleX,
               haveBufferedJump := p.haveBufferedJump, haveJumped := p.haveJumped) == p
  {
    var buffered := now - p.jumpBuffer < JumpBufferWindow && p.haveJumped;
    var p1 := p.(haveBufferedJump := buffered);
    var p2 := if !grounded && p1.velocityY <= FallingVelocity then p1.(haveJumped := false) else p1;
    var p3 := if !pulling then FaceTowards(p2, horizontalDirection) else p2;
    if pulling then FaceTowards(p3, hairDirX) else p3
  }

  // ---------------------------------------------------------------------------------------
  // Jumping
  // ---------------------------------------------------------------------------------------

  /** `ApplyJumpForce(bonus)`: launch upwards at the jump force plus the bonus, mark the jump
      as made and clear the buffer and the last-grounded time. */
  function ApplyJumpForce(cfg: Config, p: Player, bonusForce: real): (r: Player)
    ensures r.velocityY == cfg.jumpForce + bonusForce
    ensures r.haveJumped && !r.haveBufferedJump
    ensures r.jumpBuffer == 0.0 && r.coyoteTimeOfFalling == 0.0
    ensures r.(velocityY := p.velocityY, haveJumped := p.haveJumped, haveBufferedJump := p.haveBufferedJump,
               jumpBuffer := p.jumpBuffer, coyoteTimeOfFalling := p.coyoteTimeOfFalling) == p
  {
    p.(coyoteTimeOfFalling := 0.0, velocityY := cfg.jumpForce + bonusForce,
       haveJumped := true, haveBufferedJump := false, jumpBuffer := 0.0)
  }

  /** The `Jump` input callback. While the hair is being pulled in it only disarms the boost.
      After a jump, a press is remembered in the jump buffer. Before one, a press while
      grounded or in coyote time arms the boost from `now`. Releasing after jumping with the
      boost armed restarts its clock at 0 and leaves it armed. */
  function Jump(cfg: Config, p: Player, phase: Phase, pulling: bool, grounded: bool, now: real): (r: Player)
    ensures pulling ==> r == p.(shouldApplyJumpForce := false)
    ensures r.haveJumped == p.haveJumped && r.haveBufferedJump == p.haveBufferedJump
    ensures r.facingRight == p.facingRight && r.scaleX == p.scaleX
    ensures r.velocityY == p.velocityY && r.gravityScale == p.gravityScale
    ensures !pulling && p.haveJumped ==>
      && r.jumpBuffer == (if phase == Started then now else p.jumpBuffer)
      && r.shouldApplyJumpForce == p.shouldApplyJumpForce
      && r.jumpStartTime == (if phase == Canceled && p.shouldApplyJumpForce then 0.0 else p.jumpStartTime)
      && r.coyoteTimeOfFalling == p.coyoteTimeOfFalling && r.useSafeEdge == p.useSafeEdge
    ensures !pulling && !p.haveJumped ==>
      && r.jumpBuffer == p.jumpBuffer
      && (if phase == Started && (grounded || now - p.coyoteTimeOfFalling < cfg.coyoteTime)
          then r.shouldApplyJumpForce && r.jumpStartTime == now
          else r.shouldApplyJumpForce == p.shouldApplyJumpForce && r.jumpStartTime == p.jumpStartTime)
      && r.coyoteTimeOfFalling == (if grounded then now else p.coyoteTimeOfFalling)
      && r.useSafeEdge == (grounded || p.useSafeEdge)
  {
    if pulling then
      p.(shouldApplyJumpForce := false)
    else
      var p1 :=
        if p.haveJumped then
          (if phase == Started then p.(jumpBuffer := now) else p)
        else
          var c := CoyoteTime(cfg, p, grounded, now);
          if phase == Started && CanJump(c.state)
          then c.player.(jumpStartTime := now, shouldApplyJumpForce := true)
          else c.player;
      if p1.haveJumped && p1.shouldApplyJumpForce && phase == Canceled
      then p1.(shouldApplyJumpForce := true, jumpStartTime := 0.0)
      else p1
  }

  // ---------------------------------------------------------------------------------------
  // Gravity
  // ---------------------------------------------------------------------------------------

  /** `Mathf.Clamp01`. */
  function Clamp01(t: real): (r: real)
    ensures 0.0 <= r <= 1.0
    ensures 0.0 <= t <= 1.0 ==> r == t
    ensures t < 0.0 ==> r == 0.0
    ensures t > 1.0 ==> r == 1.0
  {
    if t < 0.0 then 0.0 else if t > 1.0 then 1.0 else t
  }

  lemma MulNonNegative(x: real, y: real)
    requires x >= 0.0 && y >= 0.0
    ensures x * y >= 0.0
  {
  }

  /** Proof helper for `Lerp`: a product with a factor in [0, 1] lies between 0 and the
      value. It exists only to keep `Lerp`'s nonlinear bounds stable for the solver. */
  function MulUnit(x: real, c: real): (r: real)
    requires 0.0 <= c <= 1.0
    ensures x >= 0.0 ==> 0.0 <= r <= x
    ensures x <= 0.0 ==> x <= r <= 0.0
    ensures c == 0.0 ==> r == 0.0
    ensures c == 1.0 ==> r == x
    ensures r == x * c
  {
    var size := if x >= 0.0 then x else -x;
    MulNonNegative(size, c);
    MulNonNegative(size, 1.0 - c);
    x * c
  }

  /** `Mathf.Lerp`: linear interpolation `a + (b - a) * t` with `t` clamped to [0, 1]. */
  function Lerp(a: real, b: real, t: real): (r: real)
    ensures a <= b ==> a <= r <= b
    ensures b <= a ==> b <= r <= a
    ensures t <= 0.0 ==> r == a
    ensures t >= 1.0 ==> r == b
    ensures 0.0 <= t <= 1.0 ==> r == a + (b - a) * t
  {
    a + MulUnit(b - a, Clamp01(t))
  }

  /** What one fast-falling physics tick adds to the gravity scale: the falling speed,
      weighted by the clamped product of the tick length and the falling acceleration. */
  function RampStep(cfg: Config): real
  {
    cfg.fallingSpeed * Clamp01(cfg.fixedDeltaTime * cfg.fallingAcceleration)
  }

  /** `ApplyGravity` for a ground state: base gravity on the ground; 3 more in coyote time
      unless a jump is under way; when falling faster than the threshold, raised to at least
      5 more than base and then by one ramp step; otherwise base gravity. */
  function ApplyGravity(cfg: Config, p: Player, state: GroundedState): (r: Player)
    ensures r.(gravityScale := p.gravityScale) == p
    ensures state == Grounded ==> r.gravityScale == cfg.gravity
    ensures state == Coyote ==> r.gravityScale == (if p.haveJumped then p.gravityScale else cfg.gravity + 3.0)
    ensures state == Jumpable ==> r == p
    ensures state == Falling && p.velocityY >= cfg.gravity - 0.1 ==> r.gravityScale == cfg.gravity
    ensures state == Falling && p.velocityY < cfg.gravity - 0.1 && cfg.fallingSpeed >= 0.0 ==>
      var floor := if p.gravityScale < cfg.gravity + 5.0 then cfg.gravity + 5.0 else p.gravityScale;
      floor <= r.gravityScale <= floor + cfg.fallingSpeed
    ensures state == Falling && p.velocityY < cfg.gravity - 0.1 ==>
      var floor := if p.gravityScale < cfg.gravity + 5.0 then cfg.gravity + 5.0 else p.gravityScale;
      r.gravityScale == floor + RampStep(cfg)
  {
    match state
    case Grounded => p.(gravityScale := cfg.gravity)
    case Coyote => if !p.haveJumped then p.(gravityScale := cfg.gravity + 3.0) else p
    case Falling =>
      if p.velocityY < cfg.gravity - 0.1 then
        var floor := if p.gravityScale < cfg.gravity + 5.0 then cfg.gravity + 5.0 else p.gravityScale;
        p.(gravityScale := Lerp(floor, floor + cfg.fallingSpeed, cfg.fixedDeltaTime * cfg.fallingAcceleration))
      else
        p.(gravityScale := cfg.gravity)
    case Jumpable => p
  }

  lemma AddOneStep(k: real, step: real)
    ensures k * step + step == (k + 1.0) * step
  {
  }

  /** One fast-falling tick above `g + 5` adds exactly one ramp step. */
  lemma FallingTickAddsStep(cfg: Config, q: Player)
    requires q.velocityY < cfg.gravity - 0.1 && q.gravityScale >= cfg.gravity + 5.0
    ensures ApplyGravity(cfg, q, Falling).velocityY == q.velocityY
    ensures ApplyGravity(cfg, q, Falling).gravityScale == q.gravityScale + RampStep(cfg)
  {
  }

  /** The gravity scale after `n` fast-falling physics ticks in a row. */
  function FallingTicks(cfg: Config, p: Player, n: nat): Player
  {
    if n == 0 then p else ApplyGravity(cfg, FallingTicks(cfg, p, n - 1), Falling)
  }

  /** Once the scale has reached `g + 5`, every fast-falling tick adds the same ramp step
      and nothing caps it: after `n` ticks it has grown by exactly `n` steps. */
  lemma {:induction false} FallingRampIsLinear(cfg: Config, p: Player, n: nat)
    requires p.velocityY < cfg.gravity - 0.1
    requires p.gravityScale >= cfg.gravity + 5.0 && RampStep(cfg) >= 0.0
    ensures FallingTicks(cfg, p, n).velocityY == p.velocityY
    ensures FallingTicks(cfg, p, n).gravityScale == p.gravityScale + (n as real) * RampStep(cfg)
    decreases n
  {
    if n > 0 {
      var step := RampStep(cfg);
      var k := (n - 1) as real;
      var before := FallingTicks(cfg, p, n - 1);
      FallingRampIsLinear(cfg, p, n - 1);
      MulNonNegative(k, step);
      FallingTickAddsStep(cfg, before);
      AddOneStep(k, step);
    }
  }

  // ---------------------------------------------------------------------------------------
  // Physics tick
  // ---------------------------------------------------------------------------------------

  /** `FixedUpdate` without the horizontal movement: shape gravity, then fire a buffered jump
      with double bonus if the player is grounded or in coyote time, then keep pushing
      upwards while the armed boost is younger than the maximum jump time. A boost in the
      same tick as a buffered jump overrides its velocity with the plain jump force. */
  function FixedUpdate(cfg: Config, p: Player, grounded: bool, now: real): (r: Player)
    ensures var state := CoyoteTime(cfg, p, grounded, now).state;
      var buffered := p.haveBufferedJump && CanJump(state);
      var boost := p.shouldApplyJumpForce && now - p.jumpStartTime < cfg.maxJumpTime;
      && r.velocityY == (if boost then cfg.jumpForce else if buffered then 3.0 * cfg.jumpForce else p.velocityY)
      && r.gravityScale == ApplyGravity(cfg, p, state).gravityScale
      && (buffered || boost ==>
            r.haveJumped && !r.haveBufferedJump && r.jumpBuffer == 0.0 && r.coyoteTimeOfFalling == 0.0)
      && (!(buffered || boost) ==>
            && r.haveJumped == p.haveJumped && r.haveBufferedJump == p.haveBufferedJump
            && r.jumpBuffer == p.jumpBuffer
            && r.coyoteTimeOfFalling == (if grounded then now else p.coyoteTimeOfFalling))
    ensures grounded ==> r.useSafeEdge
    ensures !grounded ==> r.useSafeEdge == p.useSafeEdge
    ensures r.facingRight == p.facingRight && r.scaleX == p.scaleX
    ensures r.shouldApplyJumpForce == p.shouldApplyJumpForce && r.jumpStartTime == p.jumpStartTime
  {
    var c1 := CoyoteTime(cfg, p, grounded, now);
    var p1 := ApplyGravity(cfg, c1.player, c1.state);
    var c2 := CoyoteTime(cfg, p1, grounded, now);
    var p2 := c2.player;
    var p3 := if p2.haveBufferedJump && CanJump(c2.state)
      then ApplyJumpForce(cfg, p2, cfg.jumpForce * 2.0)
      else p2;
    if p3.shouldApplyJumpForce && now - p3.jumpStartTime < cfg.maxJumpTime
    then ApplyJumpForce(cfg, p3, 0.0)
    else p3
  }

  /** A jump pressed in the air less than the buffer window before landing fires on the
      first physics tick on the ground, with the double bonus unless the held boost is
      still running. */
  lemma BufferedJumpFiresOnLanding(
    cfg: Config, p: Player, t0: real, t1: real, t2: real, dir: real, hairDirX: real)
    requires p.haveJumped
    requires t1 - t0 < JumpBufferWindow
    ensures
      var pressed := Jump(cfg, p, Started, false, false, t0);
      var framed := Update(cfg, pressed, true, t1, dir, false, hairDirX);
      var landed := FixedUpdate(cfg, framed, true, t2);
      && landed.haveJumped && !landed.haveBufferedJump
      && (!(p.shouldApplyJumpForce && t2 - p.jumpStartTime < cfg.maxJumpTime) ==>
            landed.velocityY == 3.0 * cfg.jumpForce)
  {
  }

  /** A press older than the buffer window is forgotten: the next physics tick fires no
      buffered jump and leaves the vertical velocity alone unless the boost is running. */
  lemma StaleBufferDoesNotFire(
    cfg: Config, p: Player, t1: real, t2: real, grounded: bool, dir: real)
    requires t1 - p.jumpBuffer >= JumpBufferWindow
    requires !(p.shouldApplyJumpForce && t2 - p.jumpStartTime < cfg.maxJumpTime)
    ensures
      var framed := Update(cfg, p, grounded, t1, dir, false, 0.0);
      FixedUpdate(cfg, framed, grounded, t2).velocityY == p.velocityY
  {
  }

  /** The buffer is gated on `haveJumped`, which the frame update clears as soon as the
      player starts to fall. A press made once falling is therefore ignored outright and
      leaves no buffered jump behind: only presses made while still rising are buffered. */
  lemma FallingPressIsIgnored(cfg: Config, p: Player, t0: real, t1: real, dir: real)
    requires !p.haveJumped
    requires t0 - p.coyoteTimeOfFalling >= cfg.coyoteTime
    ensures Jump(cfg, p, Started, false, false, t0) == p
    ensures !Update(cfg, p, false, t1, dir, false, 0.0).haveBufferedJump
  {
  }

  /** Releasing the button after the jump restarts the boost clock at 0, so once the clock
      reads at least the maximum jump time the boost stops pushing, although it stays armed. */
  lemma ReleaseEndsBoost(cfg: Config, p: Player, t: real, now: real, grounded: bool, groundedLater: bool)
    requires p.haveJumped && p.shouldApplyJumpForce && !p.haveBufferedJump
    requires now >= cfg.maxJumpTime
    ensures var released := Jump(cfg, p, Canceled, false, grounded, t);
      && released.shouldApplyJumpForce
      && FixedUpdate(cfg, released, groundedLater, now).velocityY == p.velocityY
  {
  }

  /** A press buffered while still rising is lost once the fall has been seen by two
      frames: the first clears `haveJumped`, so the second recomputes the buffered flag as
      false, and landing afterwards fires nothing unless the boost is still running. */
  lemma RisingPressLostAfterTwoFallingFrames(
    cfg: Config, p: Player, v: real, t0: real, t1: real, t2: real, t3: real, dir: real)
    requires p.haveJumped && p.velocityY > 0.0
    requires v <= FallingVelocity
    requires !(p.shouldApplyJumpForce && t3 - p.jumpStartTime < cfg.maxJumpTime)
    ensures
      var pressed := Jump(cfg, p, Started, false, false, t0);
      var firstFall := Update(cfg, pressed.(velocityY := v), false, t1, dir, false, 0.0);
      var secondFall := Update(cfg, firstFall, false, t2, dir, false, 0.0);
      && pressed.haveJumped && pressed.jumpBuffer == t0
      && !secondFall.haveBufferedJump
      && FixedUpdate(cfg, secondFall, true, t3).velocityY == v
  {
  }

  /** Only a fall clears `haveJumped`. If the player reaches the ground while it is still set,
      a press on the ground does not arm the boost but is buffered, and the next grounded
      physics tick launches with the double bonus unless an older boost is still running. */
  lemma GroundedPressWithJumpFlagLaunchesTriple(
    cfg: Config, p: Player, t0: real, t1: real, t2: real, dir: real)
    requires p.haveJumped
    requires t1 - t0 < JumpBufferWindow
    requires !(p.shouldApplyJumpForce && t2 - p.jumpStartTime < cfg.maxJumpTime)
    ensures
      var pressed := Jump(cfg, p, Started, false, true, t0);
      var framed := Update(cfg, pressed, true, t1, dir, false, 0.0);
      && pressed.shouldApplyJumpForce == p.shouldApplyJumpForce
      && pressed.jumpStartTime == p.jumpStartTime
      && framed.haveJumped && framed.haveBufferedJump
      && FixedUpdate(cfg, framed, true, t2).velocityY == 3.0 * cfg.jumpForce
  {
  }
}
