/** Torch placement along the maze walls and torch flicker (src/assets.c).
    The maze itself is not part of this model: its extent is a MazeDims
    value and Maze_HasWall is the `hasWall` parameter. rand() is the stream
    `rand`, whose k-th entry is the value of the k-th call. */
module Torches {
  import opened Geometry

  datatype Dir = North | South | West | East

  /** The fields of the maze that torch placement reads. */
  datatype MazeDims = MazeDims(width: int, height: int, cellSize: real)

  /** Where a torch goes and which way it faces. */
  datatype Slot = Slot(position: Vec3, normal: Vec3)

  datatype Torch = Torch(position: Vec3, normal: Vec3, flickerTime: real, baseIntensity: real)

  /** What Torches_Generate leaves in *outTorches. */
  datatype TorchBuffer = Untouched | NullBuffer | Allocated(torches: array<Torch>)

  const TorchSpacing: real := 12.0
  const TorchHeight: real := 2.0
  const WallOffset: real := 0.11
  const FirstOffset: real := 0.5
  /** The flicker period used by the source (an approximation of 2 pi). */
  const Period: real := 6.28

  function Min(a: int, b: int): int
  {
    if a <= b then a else b
  }

  function CellCenterX(d: MazeDims, x: int): real
  {
    (x as real - d.width as real * 0.5 + 0.5) * d.cellSize
  }

  function CellCenterZ(d: MazeDims, y: int): real
  {
    (y as real - d.height as real * 0.5 + 0.5) * d.cellSize
  }

  /** The torch on side `dir` of cell (x, y) at distance `offset` along the wall. */
  function SlotAt(d: MazeDims, x: int, y: int, dir: Dir, offset: real): Slot
  {
    var cx := CellCenterX(d, x);
    var cz := CellCenterZ(d, y);
    var half := d.cellSize * 0.5;
    match dir
    case North => Slot(Vec3(cx - half + offset, TorchHeight, cz - half - WallOffset), Vec3(0.0, 0.0, 1.0))
    case South => Slot(Vec3(cx - half + offset, TorchHeight, cz + half + WallOffset), Vec3(0.0, 0.0, -1.0))
    case West => Slot(Vec3(cx - half - WallOffset, TorchHeight, cz - half + offset), Vec3(1.0, 0.0, 0.0))
    case East => Slot(Vec3(cx + half + WallOffset, TorchHeight, cz - half + offset), Vec3(-1.0, 0.0, 0.0))
  }

  /** Number of offsets FirstOffset + k * TorchSpacing (k = 0, 1, ...) below `cellSize`. */
  function PerWall(cellSize: real): nat
  {
    if cellSize <= FirstOffset then 0 else -((-(cellSize - FirstOffset) / TorchSpacing).Floor)
  }

  /** PerWall counts exactly the offsets that lie below the cell size. */
  lemma PerWallCounts(cellSize: real, k: nat)
    ensures k < PerWall(cellSize) <==> FirstOffset + TorchSpacing * k as real < cellSize
  {
    if cellSize > FirstOffset {
      var a := (cellSize - FirstOffset) / TorchSpacing;
      var f := (-a).Floor;
      assert f as real <= -a < f as real + 1.0;
      assert k < PerWall(cellSize) <==> k as real < a;
    }
  }

  /** The torches one wall receives, in order of increasing offset. */
  function WallSlots(d: MazeDims, x: int, y: int, dir: Dir): seq<Slot>
  {
    seq(PerWall(d.cellSize), k => SlotAt(d, x, y, dir, FirstOffset + TorchSpacing * k as real))
  }

  function SideSlots(d: MazeDims, hasWall: (int, int, Dir) -> bool, x: int, y: int, dir: Dir): seq<Slot>
  {
    if hasWall(x, y, dir) then WallSlots(d, x, y, dir) else []
  }

  /** The torches of one cell: north, south, west, east. */
  function CellSlots(d: MazeDims, hasWall: (int, int, Dir) -> bool, x: int, y: int): seq<Slot>
  {
    SideSlots(d, hasWall, x, y, North) + SideSlots(d, hasWall, x, y, South)
    + SideSlots(d, hasWall, x, y, West) + SideSlots(d, hasWall, x, y, East)
  }

  /** The torches of cells x, x+1, ... of row y. */
  function RowSlots(d: MazeDims, hasWall: (int, int, Dir) -> bool, y: int, x: int): seq<Slot>
    decreases d.width - x
  {
    if x >= d.width then [] else CellSlots(d, hasWall, x, y) + RowSlots(d, hasWall, y, x + 1)
  }

  /** The torches of rows y, y+1, ... */
  function GridSlots(d: MazeDims, hasWall: (int, int, Dir) -> bool, y: int): seq<Slot>
    decreases d.height - y
  {
    if y >= d.height then [] else RowSlots(d, hasWall, y, 0) + GridSlots(d, hasWall, y + 1)
  }

  /** Every torch slot of the maze in the order placement visits them:
      rows top to bottom, cells left to right, sides N, S, W, E. */
  function AllSlots(d: MazeDims, hasWall: (int, int, Dir) -> bool): seq<Slot>
  {
    GridSlots(d, hasWall, 0)
  }

  /** The k-th torch placed: its slot, and the flicker phase and base
      intensity drawn from the (2k)-th and (2k+1)-th rand() values. Whatever
      rand() returns, the phase lies in [0, Period) and the base intensity
      in [0.8, 0.99]. */
  function MakeTorch(s: Slot, rand: nat -> nat, k: nat): (t: Torch)
    ensures t.position == s.position && t.normal == s.normal
    ensures 0.0 <= t.flickerTime < Period
    ensures 0.8 <= t.baseIntensity <= 0.99
  {
    Torch(s.position, s.normal,
          (rand(2 * k) % 1000) as real / 1000.0 * Period,
          0.8 + (rand(2 * k + 1) % 20) as real / 100.0)
  }

  ghost predicate Filled(buf: array<Torch>, count: int, slots: seq<Slot>, rand: nat -> nat)
    reads buf
  {
    count == Min(buf.Length, |slots|)
    && forall k :: 0 <= k < count ==> buf[k] == MakeTorch(slots[k], rand, k)
  }

  lemma AppendAssoc<T>(a: seq<T>, b: seq<T>, c: seq<T>, r: seq<T>)
    requires b + c == r
    ensures a + b + c == a + r
  {
    assert a + b + c == a + (b + c);
  }

  /** A full buffer stays filled whatever slots would have followed. */
  lemma FilledExtend(buf: array<Torch>, count: int, s: seq<Slot>, t: seq<Slot>, rand: nat -> nat)
    requires Filled(buf, count, s, rand)
    requires count == buf.Length || t == []
    ensures Filled(buf, count, s + t, rand)
  {
    forall k | 0 <= k < count
      ensures buf[k] == MakeTorch((s + t)[k], rand, k)
    {
      assert (s + t)[k] == s[k];
    }
  }

  /** The offset loop for one wall side: place torches while the offset is
      below the cell size and the buffer is not full. */
  method PlaceOnWall(buf: array<Torch>, count: int, ghost done: seq<Slot>,
                     d: MazeDims, x: int, y: int, dir: Dir, rand: nat -> nat)
    returns (count': int)
    requires Filled(buf, count, done, rand)
    modifies buf
    ensures Filled(buf, count', done + WallSlots(d, x, y, dir), rand)
  {
    ghost var slots := WallSlots(d, x, y, dir);
    count' := count;
    var offset := FirstOffset;
    ghost var j: nat := 0;
    while offset < d.cellSize && count' < buf.Length
      invariant offset == FirstOffset + TorchSpacing * j as real
      invariant j <= |slots|
      invariant Filled(buf, count', done + slots[..j], rand)
      decreases |slots| - j
    {
      PerWallCounts(d.cellSize, j);
      assert count' == |done| + j;
      buf[count'] := MakeTorch(SlotAt(d, x, y, dir, offset), rand, count');
      assert (done + slots[..j + 1])[count'] == slots[j];
      forall k | 0 <= k < count'
        ensures (done + slots[..j + 1])[k] == (done + slots[..j])[k]
      {
      }
      count' := count' + 1;
      offset := offset + TorchSpacing;
      j := j + 1;
    }
    PerWallCounts(d.cellSize, j);
    PrefixFinished(buf, count', done, slots, j, rand);
  }

  /** A loop over `slots` that stopped after j of them, at their end or on
      a full buffer, has filled the buffer with all of them. */
  lemma PrefixFinished(buf: array<Torch>, count: int, done: seq<Slot>, slots: seq<Slot>, j: nat, rand: nat -> nat)
    requires j <= |slots| && (j == |slots| || count >= buf.Length)
    requires Filled(buf, count, done + slots[..j], rand)
    ensures Filled(buf, count, done + slots, rand)
  {
    assert slots == slots[..j] + slots[j..];
    FilledExtend(buf, count, done + slots[..j], slots[j..], rand);
    AppendAssoc(done, slots[..j], slots[j..], slots);
  }

  /** One `if (Maze_HasWall(...))` block of the cell loop. */
  method PlaceOnSide(buf: array<Torch>, count: int, ghost done: seq<Slot>, d: MazeDims,
                     hasWall: (int, int, Dir) -> bool, x: int, y: int, dir: Dir, rand: nat -> nat)
    returns (count': int)
    requires Filled(buf, count, done, rand)
    modifies buf
    ensures Filled(buf, count', done + SideSlots(d, hasWall, x, y, dir), rand)
  {
    count' := count;
    if hasWall(x, y, dir) {
      count' := PlaceOnWall(buf, count, done, d, x, y, dir, rand);
    } else {
      assert done + [] == done;
    }
  }

  /** The body of the cell loop: the four wall sides in the order N, S, W, E. */
  method PlaceInCell(buf: array<Torch>, count: int, ghost done: seq<Slot>, d: MazeDims,
                     hasWall: (int, int, Dir) -> bool, x: int, y: int, rand: nat -> nat)
    returns (count': int)
    requires Filled(buf, count, done, rand)
    modifies buf
    ensures Filled(buf, count', done + CellSlots(d, hasWall, x, y), rand)
  {
    ghost var n := SideSlots(d, hasWall, x, y, North);
    ghost var s := SideSlots(d, hasWall, x, y, South);
    ghost var w := SideSlots(d, hasWall, x, y, West);
    ghost var e := SideSlots(d, hasWall, x, y, East);
    count' := PlaceOnSide(buf, count, done, d, hasWall, x, y, North, rand);
    count' := PlaceOnSide(buf, count', done + n, d, hasWall, x, y, South, rand);
    count' := PlaceOnSide(buf, count', done + n + s, d, hasWall, x, y, West, rand);
    count' := PlaceOnSide(buf, count', done + n + s + w, d, hasWall, x, y, East, rand);
    CellAssoc(done, n, s, w, e);
  }

  lemma CellAssoc(done: seq<Slot>, n: seq<Slot>, s: seq<Slot>, w: seq<Slot>, e: seq<Slot>)
    ensures done + n + s + w + e == done + (n + s + w + e)
  {
    assert done + n + s + w + e == done + (n + s + w) + e == done + (n + s + w + e);
  }

  /** The torches of cells 0 .. x-1 of row y. */
  function RowPrefix(d: MazeDims, hasWall: (int, int, Dir) -> bool, y: int, x: int): seq<Slot>
    decreases x
  {
    if x <= 0 then [] else RowPrefix(d, hasWall, y, x - 1) + CellSlots(d, hasWall, x - 1, y)
  }

  lemma {:induction false} RowSplit(d: MazeDims, hasWall: (int, int, Dir) -> bool, y: int, x: int)
    requires 0 <= x <= d.width
    ensures RowPrefix(d, hasWall, y, x) + RowSlots(d, hasWall, y, x) == RowSlots(d, hasWall, y, 0)
  {
    if x > 0 {
      RowSplit(d, hasWall, y, x - 1);
      assert RowSlots(d, hasWall, y, x - 1) == CellSlots(d, hasWall, x - 1, y) + RowSlots(d, hasWall, y, x);
    }
  }

  /** When the cell loop of a row stops, at the row's end or on a full
      buffer, the whole row has been placed. */
  lemma RowFinished(buf: array<Torch>, count: int, done: seq<Slot>, d: MazeDims,
                    hasWall: (int, int, Dir) -> bool, y: int, x: int, rand: nat -> nat)
    requires 0 <= x && (x == 0 || x <= d.width)
    requires x >= d.width || count >= buf.Length
    requires Filled(buf, count, done + RowPrefix(d, hasWall, y, x), rand)
    ensures Filled(buf, count, done + RowSlots(d, hasWall, y, 0), rand)
  {
    var rest := if d.width < 0 then [] else RowSlots(d, hasWall, y, x);
    if d.width >= 0 {
      RowSplit(d, hasWall, y, x);
    }
    FilledExtend(buf, count, done + RowPrefix(d, hasWall, y, x), rest, rand);
    AppendAssoc(done, RowPrefix(d, hasWall, y, x), rest, RowSlots(d, hasWall, y, 0));
  }

  /** The cell loop over one row, which also stops once the buffer is full. */
  method PlaceRow(buf: array<Torch>, count: int, ghost done: seq<Slot>, d: MazeDims,
                  hasWall: (int, int, Dir) -> bool, y: int, rand: nat -> nat)
    returns (count': int)
    requires Filled(buf, count, done, rand)
    modifies buf
    ensures Filled(buf, count', done + RowSlots(d, hasWall, y, 0), rand)
  {
    count' := count;
    var x := 0;
    ghost var placed := done;
    assert done + RowPrefix(d, hasWall, y, 0) == done;
    while x < d.width && count' < buf.Length
      invariant 0 <= x && (x == 0 || x <= d.width)
      invariant placed == done + RowPrefix(d, hasWall, y, x)
      invariant Filled(buf, count', placed, rand)
    {
      count' := PlaceInCell(buf, count', placed, d, hasWall, x, y, rand);
      RowStep(done, d, hasWall, y, x);
      placed := placed + CellSlots(d, hasWall, x, y);
      x := x + 1;
    }
    RowFinished(buf, count', done, d, hasWall, y, x, rand);
  }

  lemma RowStep(done: seq<Slot>, d: MazeDims, hasWall: (int, int, Dir) -> bool, y: int, x: int)
    requires x >= 0
    ensures done + RowPrefix(d, hasWall, y, x) + CellSlots(d, hasWall, x, y) == done + RowPrefix(d, hasWall, y, x + 1)
  {
    AppendAssoc(done, RowPrefix(d, hasWall, y, x), CellSlots(d, hasWall, x, y), RowPrefix(d, hasWall, y, x + 1));
  }

  /** The torches of rows 0 .. y-1. */
  function GridPrefix(d: MazeDims, hasWall: (int, int, Dir) -> bool, y: int): seq<Slot>
    decreases y
  {
    if y <= 0 then [] else GridPrefix(d, hasWall, y - 1) + RowSlots(d, hasWall, y - 1, 0)
  }

  lemma {:induction false} GridSplit(d: MazeDims, hasWall: (int, int, Dir) -> bool, y: int)
    requires 0 <= y <= d.height
    ensures GridPrefix(d, hasWall, y) + GridSlots(d, hasWall, y) == AllSlots(d, hasWall)
  {
    if y > 0 {
      GridSplit(d, hasWall, y - 1);
      assert GridSlots(d, hasWall, y - 1) == RowSlots(d, hasWall, y - 1, 0) + GridSlots(d, hasWall, y);
    }
  }

  /** Torches_Generate. NULL maze or output pointer, or a non-positive
      capacity: returns 0 and leaves *outTorches alone. Failed allocation:
      *outTorches is NULL and 0 is returned. Otherwise a buffer of
      `maxTorches` entries holds, in placement order, the torches of as long
      a prefix of AllSlots as fits, and their number is returned. */
  method GenerateTorches(maze: Option<MazeDims>, outGiven: bool, maxTorches: int, allocOk: bool,
                         hasWall: (int, int, Dir) -> bool, rand: nat -> nat)
    returns (out: TorchBuffer, count: int)
    ensures 0 <= count && (maxTorches > 0 ==> count <= maxTorches)
    ensures maze.None? || !outGiven || maxTorches <= 0 ==> out == Untouched && count == 0
    ensures maze.Some? && outGiven && maxTorches > 0 && !allocOk ==> out == NullBuffer && count == 0
    ensures maze.Some? && outGiven && maxTorches > 0 && allocOk ==>
              out.Allocated? && fresh(out.torches) && out.torches.Length == maxTorches
              && count == Min(maxTorches, |AllSlots(maze.value, hasWall)|)
              && forall k :: 0 <= k < count ==> out.torches[k] == MakeTorch(AllSlots(maze.value, hasWall)[k], rand, k)
  {
    if maze.None? || !outGiven || maxTorches <= 0 {
      return Untouched, 0;
    }
    if !allocOk {
      return NullBuffer, 0;
    }
    var d := maze.value;
    var buf := new Torch[maxTorches];
    out := Allocated(buf);
    count := 0;
    var y := 0;
    while y < d.height && count < maxTorches
      invariant 0 <= y && (y == 0 || y <= d.height)
      invariant Filled(buf, count, GridPrefix(d, hasWall, y), rand)
    {
      count := PlaceRow(buf, count, GridPrefix(d, hasWall, y), d, hasWall, y, rand);
      y := y + 1;
    }
    GridFinished(buf, count, d, hasWall, y, rand);
  }

  lemma GridFinished(buf: array<Torch>, count: int, d: MazeDims, hasWall: (int, int, Dir) -> bool,
                     y: int, rand: nat -> nat)
    requires 0 <= y && (y == 0 || y <= d.height)
    requires y >= d.height || count >= buf.Length
    requires Filled(buf, count, GridPrefix(d, hasWall, y), rand)
    ensures Filled(buf, count, AllSlots(d, hasWall), rand)
  {
    if d.height < 0 {
      assert AllSlots(d, hasWall) == [] == GridPrefix(d, hasWall, y);
    } else {
      GridSplit(d, hasWall, y);
      FilledExtend(buf, count, GridPrefix(d, hasWall, y), GridSlots(d, hasWall, y), rand);
    }
  }

  /** The number of wall sides present, counted in the order AllSlots visits them. */
  function SidesPresent(d: MazeDims, hasWall: (int, int, Dir) -> bool, x: int, y: int): nat
  {
    (if hasWall(x, y, North) then 1 else 0) + (if hasWall(x, y, South) then 1 else 0)
    + (if hasWall(x, y, West) then 1 else 0) + (if hasWall(x, y, East) then 1 else 0)
  }

  function RowWalls(d: MazeDims, hasWall: (int, int, Dir) -> bool, y: int, x: int): nat
    decreases d.width - x
  {
    if x >= d.width then 0 else SidesPresent(d, hasWall, x, y) + RowWalls(d, hasWall, y, x + 1)
  }

  function GridWalls(d: MazeDims, hasWall: (int, int, Dir) -> bool, y: int): nat
    decreases d.height - y
  {
    if y >= d.height then 0 else RowWalls(d, hasWall, y, 0) + GridWalls(d, hasWall, y + 1)
  }

  lemma SideSlotsCount(d: MazeDims, hasWall: (int, int, Dir) -> bool, x: int, y: int, dir: Dir)
    ensures |SideSlots(d, hasWall, x, y, dir)| == if hasWall(x, y, dir) then PerWall(d.cellSize) else 0
  {
  }

  lemma CellSlotsCount(d: MazeDims, hasWall: (int, int, Dir) -> bool, x: int, y: int)
    ensures |CellSlots(d, hasWall, x, y)| == PerWall(d.cellSize) * SidesPresent(d, hasWall, x, y)
  {
    var p := PerWall(d.cellSize);
    var n := if hasWall(x, y, North) then 1 else 0;
    var s := if hasWall(x, y, South) then 1 else 0;
    var w := if hasWall(x, y, West) then 1 else 0;
    var e := if hasWall(x, y, East) then 1 else 0;
    SideSlotsCount(d, hasWall, x, y, North);
    SideSlotsCount(d, hasWall, x, y, South);
    SideSlotsCount(d, hasWall, x, y, West);
    SideSlotsCount(d, hasWall, x, y, East);
    assert |CellSlots(d, hasWall, x, y)| == p * n + p * s + p * w + p * e;
    MulDistributes4(p, n, s, w, e);
  }

  lemma MulDistributes4(p: int, a: int, b: int, c: int, e: int)
    ensures p * a + p * b + p * c + p * e == p * (a + b + c + e)
  {
  }

  /** Every present wall side gets exactly PerWall(cellSize) torches. */
  lemma {:induction false} RowSlotsCount(d: MazeDims, hasWall: (int, int, Dir) -> bool, y: int, x: int)
    ensures |RowSlots(d, hasWall, y, x)| == PerWall(d.cellSize) * RowWalls(d, hasWall, y, x)
    decreases d.width - x
  {
    if x < d.width {
      RowSlotsCount(d, hasWall, y, x + 1);
      CellSlotsCount(d, hasWall, x, y);
      MulDistributes(PerWall(d.cellSize), SidesPresent(d, hasWall, x, y), RowWalls(d, hasWall, y, x + 1));
    }
  }

  lemma MulDistributes(p: int, a: int, b: int)
    ensures p * (a + b) == p * a + p * b
  {
  }

  lemma {:induction false} GridSlotsCount(d: MazeDims, hasWall: (int, int, Dir) -> bool, y: int)
    ensures |GridSlots(d, hasWall, y)| == PerWall(d.cellSize) * GridWalls(d, hasWall, y)
    decreases d.height - y
  {
    if y < d.height {
      GridSlotsCount(d, hasWall, y + 1);
      RowSlotsCount(d, hasWall, y, 0);
      MulDistributes(PerWall(d.cellSize), RowWalls(d, hasWall, y, 0), GridWalls(d, hasWall, y + 1));
    }
  }

  /** The maze has PerWall(cellSize) torch slots per standing wall side. */
  lemma AllSlotsCount(d: MazeDims, hasWall: (int, int, Dir) -> bool)
    ensures |AllSlots(d, hasWall)| == PerWall(d.cellSize) * GridWalls(d, hasWall, 0)
  {
    GridSlotsCount(d, hasWall, 0);
  }

  /** A slot of row y from cell x on belongs to a standing wall of a cell of that row. */
  lemma {:induction false} RowSlotsFromWalls(d: MazeDims, hasWall: (int, int, Dir) -> bool, y: int, x: int, s: Slot)
    requires s in RowSlots(d, hasWall, y, x)
    ensures exists cx, dir :: x <= cx < d.width && hasWall(cx, y, dir) && s in WallSlots(d, cx, y, dir)
    decreases d.width - x
  {
    if s in CellSlots(d, hasWall, x, y) {
      if s in SideSlots(d, hasWall, x, y, North) {
        assert hasWall(x, y, North) && s in WallSlots(d, x, y, North);
      } else if s in SideSlots(d, hasWall, x, y, South) {
        assert hasWall(x, y, South) && s in WallSlots(d, x, y, South);
      } else if s in SideSlots(d, hasWall, x, y, West) {
        assert hasWall(x, y, West) && s in WallSlots(d, x, y, West);
      } else {
        assert hasWall(x, y, East) && s in WallSlots(d, x, y, East);
      }
    } else {
      RowSlotsFromWalls(d, hasWall, y, x + 1, s);
    }
  }

  lemma {:induction false} GridSlotsFromWalls(d: MazeDims, hasWall: (int, int, Dir) -> bool, y: int, s: Slot)
    requires s in GridSlots(d, hasWall, y)
    ensures exists cx, cy, dir :: 0 <= cx < d.width && y <= cy < d.height
                                  && hasWall(cx, cy, dir) && s in WallSlots(d, cx, cy, dir)
    decreases d.height - y
  {
    if s in RowSlots(d, hasWall, y, 0) {
      RowSlotsFromWalls(d, hasWall, y, 0, s);
    } else {
      GridSlotsFromWalls(d, hasWall, y + 1, s);
    }
  }

  /** A torch is placed only on a wall side that is present, of a cell inside the maze. */
  lemma SlotsComeFromWalls(d: MazeDims, hasWall: (int, int, Dir) -> bool, s: Slot)
    requires s in AllSlots(d, hasWall)
    ensures exists cx, cy, dir :: 0 <= cx < d.width && 0 <= cy < d.height
                                  && hasWall(cx, cy, dir) && s in WallSlots(d, cx, cy, dir)
  {
    GridSlotsFromWalls(d, hasWall, 0, s);
  }

  function Dot(a: Vec3, b: Vec3): real
  {
    a.x * b.x + a.y * b.y + a.z * b.z
  }

  /** The unit axis vector pointing from a wall on side `dir` into the
      cell: N -> +Z, S -> -Z, W -> +X, E -> -X. */
  function NormalOf(dir: Dir): Vec3
  {
    match dir
    case North => Vec3(0.0, 0.0, 1.0)
    case South => Vec3(0.0, 0.0, -1.0)
    case West => Vec3(1.0, 0.0, 0.0)
    case East => Vec3(-1.0, 0.0, 0.0)
  }

  /** The slot at distance `offset` along side `dir` of a cell: at torch
      height, `offset` from the wall's starting corner along the wall, with a
      horizontal unit normal, and `cellSize/2 + WallOffset` from the cell
      centre measured along that normal, so that it faces into the cell. */
  lemma SlotFacesCell(d: MazeDims, x: int, y: int, dir: Dir, offset: real)
    ensures var s := SlotAt(d, x, y, dir, offset);
            var c := Vec3(CellCenterX(d, x), TorchHeight, CellCenterZ(d, y));
            s.position.y == TorchHeight
            && s.normal == NormalOf(dir)
            && Dot(s.normal, s.normal) == 1.0
            && Dot(Vec3(c.x - s.position.x, c.y - s.position.y, c.z - s.position.z), s.normal)
               == d.cellSize * 0.5 + WallOffset
            && (dir == North || dir == South ==> s.position.x == c.x - d.cellSize * 0.5 + offset)
            && (dir == West || dir == East ==> s.position.z == c.z - d.cellSize * 0.5 + offset)
  {
    var s := SlotAt(d, x, y, dir, offset);
    var cx, cz, half := CellCenterX(d, x), CellCenterZ(d, y), d.cellSize * 0.5;
    match dir
    case North =>
      assert s == Slot(Vec3(cx - half + offset, TorchHeight, cz - half - WallOffset), Vec3(0.0, 0.0, 1.0));
    case South =>
      assert s == Slot(Vec3(cx - half + offset, TorchHeight, cz + half + WallOffset), Vec3(0.0, 0.0, -1.0));
    case West =>
      assert s == Slot(Vec3(cx - half - WallOffset, TorchHeight, cz - half + offset), Vec3(1.0, 0.0, 0.0));
    case East =>
      assert s == Slot(Vec3(cx + half + WallOffset, TorchHeight, cz - half + offset), Vec3(-1.0, 0.0, 0.0));
  }

  /** Every torch a wall receives sits at torch height, just outside the
      wall line, with the normal of its side, facing into the cell. */
  lemma TorchFacesIntoCell(d: MazeDims, x: int, y: int, dir: Dir, s: Slot)
    requires s in WallSlots(d, x, y, dir)
    ensures s.position.y == TorchHeight
    ensures s.normal == NormalOf(dir)
    ensures var c := Vec3(CellCenterX(d, x), TorchHeight, CellCenterZ(d, y));
            Dot(Vec3(c.x - s.position.x, c.y - s.position.y, c.z - s.position.z), s.normal)
            == d.cellSize * 0.5 + WallOffset
  {
    var k :| 0 <= k < PerWall(d.cellSize) && s == WallSlots(d, x, y, dir)[k];
    var offset := FirstOffset + TorchSpacing * k as real;
    assert s == SlotAt(d, x, y, dir, offset);
    SlotFacesCell(d, x, y, dir, offset);
  }

  /** The offsets along a wall are FirstOffset, FirstOffset + TorchSpacing,
      ..., exactly those below the cell size. */
  lemma WallOffsets(d: MazeDims, x: int, y: int, dir: Dir, k: nat)
    ensures k < |WallSlots(d, x, y, dir)| <==> FirstOffset + TorchSpacing * k as real < d.cellSize
    ensures k < |WallSlots(d, x, y, dir)| ==>
              WallSlots(d, x, y, dir)[k] == SlotAt(d, x, y, dir, FirstOffset + TorchSpacing * k as real)
  {
    PerWallCounts(d.cellSize, k);
  }

  /** One flicker step: advance by dt * 8 and wrap once past Period. */
  function AdvancePhase(t: real, dt: real): (r: real)
    ensures r == t + dt * 8.0 || r == t + dt * 8.0 - Period
    ensures r > Period ==> t + dt * 8.0 > 2.0 * Period
    ensures 0.0 <= t <= Period && 0.0 <= dt * 8.0 <= Period ==> 0.0 <= r <= Period
  {
    var u := t + dt * 8.0;
    if u > Period then u - Period else u
  }

  /** Torches_Update: advance the phase of the first `count` torches; the
      rest of the buffer is untouched. */
  method UpdateTorches(torches: array<Torch>, count: int, dt: real)
    requires count <= torches.Length
    modifies torches
    ensures forall i :: 0 <= i < torches.Length ==>
              torches[i] == if i < count
                            then old(torches[i]).(flickerTime := AdvancePhase(old(torches[i].flickerTime), dt))
                            else old(torches[i])
  {
    var i := 0;
    while i < count
      invariant 0 <= i <= torches.Length && (i == 0 || i <= count)
      invariant forall j :: 0 <= j < torches.Length ==>
                  torches[j] == if j < i
                                then old(torches[j]).(flickerTime := AdvancePhase(old(torches[j].flickerTime), dt))
                                else old(torches[j])
    {
      var t := torches[i].flickerTime + dt * 8.0;
      if t > Period {
        t := t - Period;
      }
      torches[i] := torches[i].(flickerTime := t);
      i := i + 1;
    }
  }
}
