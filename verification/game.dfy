/** The state the frame loop of src/main.c keeps in main's locals, level
    (re)initialisation (InitGame) and one pass of the loop body. */
module Game {
  import opened Geometry
  import opened Collision
  import opened Player

  datatype GameState = Playing | Won

  /** main's locals: whether a maze is loaded, the wall-rectangle buffer
      (None when the pointer is NULL) with its count, the player and the
      camera angles, the game state and whether the mouse is captured. */
  datatype Game = Game(
    mazeLoaded: bool,
    walls: Option<seq<Rect>>,
    wallCount: int,
    pos: Vec3,
    velY: real,
    onGround: bool,
    yaw: real,
    pitch: real,
    state: GameState,
    mouseCaptured: bool)

  /** What the maze library delivers when a level is built: whether
      Maze_Create succeeded, whether the rectangle buffer was allocated, the
      rectangles Maze_GetWallRects wrote and the world position of the
      start cell. */
  datatype LevelBuild = LevelBuild(mazeOk: bool, wallsOk: bool, rects: seq<Rect>, start: Point)

  /** The input of one frame. `step` is the already scaled XZ displacement
      the keys ask for; `mouseDelta.z` is the vertical mouse delta. */
  datatype FrameInput = FrameInput(
    toggleMouse: bool,
    restart: bool,
    mouseDelta: Point,
    step: Point,
    jump: bool,
    dt: real)

  /** The rectangle buffer as CollidesAny reads it. */
  function Buffer(g: Game): seq<Rect>
  {
    if g.walls.Some? then g.walls.value else []
  }

  /** CollidesAny may be handed the buffer and the count: the count never
      exceeds what the buffer holds, and a NULL buffer has no entries. */
  predicate BufferMatchesCount(g: Game)
  {
    (g.walls.None? ==> g.wallCount <= 0) && (g.walls.Some? ==> g.wallCount <= |g.walls.value|)
  }

  function Feet(p: Vec3): Point
  {
    Point(p.x, p.z)
  }

  /** InitGame as written: a failed Maze_Create or a failed buffer
      allocation returns after the old buffer was freed but without
      touching the wall count. */
  method InitGameAsWritten(g: Game, build: LevelBuild) returns (r: Game)
    ensures r.mazeLoaded == build.mazeOk
    ensures build.mazeOk && build.wallsOk ==>
              r.walls == Some(build.rects) && r.wallCount == |build.rects|
              && r.pos == Vec3(build.start.x, 0.0, build.start.z)
              && r.yaw == 0.0 && r.pitch == 0.0 && r.state == Playing
    ensures !(build.mazeOk && build.wallsOk) ==>
              r.walls == None && r.wallCount == g.wallCount
              && r.pos == g.pos && r.yaw == g.yaw && r.pitch == g.pitch && r.state == g.state
    ensures r.velY == g.velY && r.onGround == g.onGround && r.mouseCaptured == g.mouseCaptured
  {
    r := g.(mazeLoaded := false, walls := None);
    if !build.mazeOk {
      return;
    }
    r := r.(mazeLoaded := true);
    if !build.wallsOk {
      return;
    }
    r := r.(walls := Some(build.rects), wallCount := |build.rects|);
    r := r.(pos := Vec3(build.start.x, 0.0, build.start.z));
    r := r.(yaw := 0.0, pitch := 0.0, state := Playing);
  }

  /** A successful level load followed by a restart whose Maze_Create fails
      leaves the game PLAYING with a NULL buffer and a positive wall count,
      and with no maze: later in the same pass of the frame loop CollidesAny
      reads through the NULL buffer and the exit test is asked about the
      NULL maze. */
  method StaleWallCountAfterFailedRestart() returns (g: Game)
    ensures g.state == Playing && g.walls.None? && g.wallCount > 0 && !g.mazeLoaded
    ensures !BufferMatchesCount(g)
  {
    var boot := Game(false, None, 0, Vec3(0.0, 0.0, 0.0), 0.0, true, 0.0, 0.0, Playing, true);
    var level := LevelBuild(true, true, [Rect(-0.1, -0.1, 0.2, 3.0)], Point(0.0, 0.0));
    g := InitGameAsWritten(boot, level);
    g := InitGameAsWritten(g, LevelBuild(false, true, [], Point(0.0, 0.0)));
  }

  /** InitGame with the count reset whenever the buffer is released: frees
      the old maze and buffer, and on success installs the new rectangles,
      puts the player at the start cell on the floor, levels the camera and
      sets PLAYING. On failure the game state and the player are untouched.
      The vertical velocity, the grounded flag and mouse capture are never
      touched. */
  method InitGame(g: Game, build: LevelBuild) returns (r: Game)
    ensures BufferMatchesCount(r)
    ensures r.mazeLoaded == build.mazeOk
    ensures build.mazeOk && build.wallsOk ==>
              r.walls == Some(build.rects) && r.wallCount == |build.rects|
              && r.pos == Vec3(build.start.x, 0.0, build.start.z)
              && r.yaw == 0.0 && r.pitch == 0.0 && r.state == Playing
    ensures !(build.mazeOk && build.wallsOk) ==>
              r.walls == None && r.wallCount == 0
              && r.pos == g.pos && r.yaw == g.yaw && r.pitch == g.pitch && r.state == g.state
    ensures r.velY == g.velY && r.onGround == g.onGround && r.mouseCaptured == g.mouseCaptured
  {
    r := g.(mazeLoaded := false, walls := None, wallCount := 0);
    if !build.mazeOk {
      return;
    }
    r := r.(mazeLoaded := true);
    if !build.wallsOk {
      return;
    }
    r := r.(walls := Some(build.rects), wallCount := |build.rects|);
    r := r.(pos := Vec3(build.start.x, 0.0, build.start.z));
    r := r.(yaw := 0.0, pitch := 0.0, state := Playing);
  }

  /** One pass of the frame loop, without rendering: mouse-capture toggle,
      restart with the corrected InitGame, mouse look and, while PLAYING on a
      loaded maze, the sliding move, the vertical step and the exit test.
      A PLAYING game whose last (re)start failed has no maze to move in, so
      it stands still. `build` is what a restart would load and `isExitAt`
      stands for Maze_WorldToCell followed by Maze_IsExit on the loaded
      maze. */
  method Frame(g: Game, input: FrameInput, build: LevelBuild, isExitAt: (real, real) -> bool)
    returns (r: Game)
    requires BufferMatchesCount(g)
    ensures BufferMatchesCount(r)
    ensures r.mouseCaptured == (g.mouseCaptured != input.toggleMouse)
    ensures -PitchLimit <= g.pitch <= PitchLimit ==> -PitchLimit <= r.pitch <= PitchLimit
    // only InitGame makes the game PLAYING again
    ensures r.state == Playing ==> g.state == Playing || input.restart
    // the exit test is only ever asked about a loaded maze
    ensures r.state == Won && g.state == Playing ==> r.mazeLoaded
    // once WON, nothing moves until a restart
    ensures g.state == Won && !input.restart ==>
              r.state == Won && r.pos == g.pos && r.velY == g.velY && r.pitch == g.pitch && r.yaw == g.yaw
    // without a maze the player stands still and the game stays as it is
    ensures !g.mazeLoaded && !input.restart ==>
              r.state == g.state && r.pos == g.pos && r.velY == g.velY && r.onGround == g.onGround
    // while PLAYING on a maze: no penetration, the ceiling holds, and WON exactly at the exit
    ensures g.state == Playing && g.mazeLoaded && !input.restart ==>
              r.walls == g.walls && r.wallCount == g.wallCount
              && (!HitsAny(Feet(g.pos), PlayerRadius, Buffer(g), g.wallCount)
                  ==> !HitsAny(Feet(r.pos), PlayerRadius, Buffer(r), r.wallCount))
              && r.pos.y <= MaxFeetY
              && (r.state == Won <==> isExitAt(r.pos.x, r.pos.z))
  {
    r := g.(mouseCaptured := g.mouseCaptured != input.toggleMouse);
    if input.restart {
      r := InitGame(r, build);
    }
    if r.mouseCaptured && r.state == Playing {
      var yaw, pitch := MouseLook(r.yaw, r.pitch, input.mouseDelta);
      r := r.(yaw := yaw, pitch := pitch);
    }
    if r.state == Playing && r.mazeLoaded {
      var pXZ := SlideMove(Feet(r.pos), input.step, PlayerRadius, Buffer(r), r.wallCount);
      r := r.(pos := Vec3(pXZ.x, r.pos.y, pXZ.z));
      var y, velY, onGround := VerticalStep(r.pos.y, r.velY, input.jump, input.dt);
      r := r.(pos := r.pos.(y := y), velY := velY, onGround := onGround);
      if isExitAt(r.pos.x, r.pos.z) {
        r := r.(state := Won);
      }
    }
  }
}
