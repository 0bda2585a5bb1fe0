/** The player's vertical motion and mouse look in the frame loop of
    src/main.c, with the game's tuning constants. */
module Player {
  import opened Geometry
  import opened Collision

  const WallHeight: real := 4.0
  const PlayerRadius: real := 0.30
  const EyeHeight: real := 1.80
  const Gravity: real := -18.0
  const JumpSpeed: real := 6.5
  const MouseSens: real := 0.0020
  /** Feet at or below this height count as standing on the floor. */
  const GroundEpsilon: real := 0.0001
  /** Highest feet height: the eyes then touch the ceiling. */
  const MaxFeetY: real := WallHeight - EyeHeight
  /** 89 degrees in radians, with raylib's value of pi. */
  const PitchLimit: real := 89.0 * (3.14159265358979323846 / 180.0)

  /** Jump, gravity and ceiling clamp for one frame. `jump` is whether the
      jump key was pressed this frame. */
  method VerticalStep(y: real, velY: real, jump: bool, dt: real)
    returns (y': real, velY': real, onGround: bool)
    ensures y' <= MaxFeetY
    ensures onGround <==> y <= GroundEpsilon && !jump
    // standing still on the floor
    ensures y <= GroundEpsilon && !jump ==> y' == 0.0 && velY' == 0.0
    // a jump starts from the floor at JumpSpeed, unless the ceiling stops it at once
    ensures y <= GroundEpsilon && jump && JumpSpeed * dt <= MaxFeetY ==> velY' == JumpSpeed && y' == JumpSpeed * dt
    ensures y <= GroundEpsilon && jump && JumpSpeed * dt > MaxFeetY ==> velY' == 0.0 && y' == MaxFeetY
    // airborne: gravity, then the ceiling clamp, which never leaves an upward velocity
    ensures y > GroundEpsilon ==>
              var v := velY + Gravity * dt;
              var h := y + v * dt;
              (h <= MaxFeetY && y' == h && velY' == v)
              || (h > MaxFeetY && y' == MaxFeetY && velY' == (if v > 0.0 then 0.0 else v))
  {
    y', velY' := y, velY;
    onGround := y' <= GroundEpsilon;
    if onGround {
      y' := 0.0;
      velY' := 0.0;
      if jump {
        velY' := JumpSpeed;
        onGround := false;
      }
    } else {
      velY' := velY' + Gravity * dt;
    }
    y' := y' + velY' * dt;
    if y' > MaxFeetY {
      y' := MaxFeetY;
      if velY' > 0.0 {
        velY' := 0.0;
      }
    }
  }

  /** Mouse look: the mouse delta turns yaw and pitch, and pitch is held
      within [-PitchLimit, PitchLimit]. The two one-sided tests of the source
      amount to clampf. */
  method MouseLook(yaw: real, pitch: real, mouseDelta: Point) returns (yaw': real, pitch': real)
    ensures -PitchLimit <= pitch' <= PitchLimit
    ensures pitch' == Clamp(pitch - mouseDelta.z * MouseSens, -PitchLimit, PitchLimit)
    ensures yaw' == yaw - mouseDelta.x * MouseSens
  {
    yaw' := yaw - mouseDelta.x * MouseSens;
    pitch' := pitch - mouseDelta.z * MouseSens;
    if pitch' > PitchLimit {
      pitch' := PitchLimit;
    }
    if pitch' < -PitchLimit {
      pitch' := -PitchLimit;
    }
  }
}
