/** The maze oracle of world/board.py: the fixed 21 x 19 template, the cell
    classification predicates, pixel conversion, tunnel wrap-around and the
    enumerations of walkable cells, food cells and neighbours. */
module Board {
  import opened Common

  const DefaultRows := 21
  const DefaultCols := 19
  /** Side of one tile in pixels. */
  const TileSize := 30

  // Cell codes
  const Path := 0
  const Wall := 1
  const GhostHouse := 2
  const GhostDoor := 3

  /** A maze as the entities receive it: at least one row, all rows as long
      as the first (the code measures the width as the length of row 0). */
  predicate IsRectangular(g: seq<seq<int>>) {
    |g| > 0 && forall i :: 0 <= i < |g| ==> |g[i]| == |g[0]|
  }

  type Grid = g: seq<seq<int>> | IsRectangular(g) witness [[]]

  const OriginalPacmanMaze: Grid := [
    [1, 1, 1, 1, 1, 1, 1, 1, 1, 1, 1, 1, 1, 1, 1, 1, 1, 1, 1],
    [1, 0, 0, 0, 0, 0, 0, 0, 0, 1, 0, 0, 0, 0, 0, 0, 0, 0, 1],
    [1, 0, 1, 1, 0, 1, 1, 1, 0, 1, 0, 1, 1, 1, 0, 1, 1, 0, 1],
    [1, 0, 1, 1, 0, 1, 1, 1, 0, 1, 0, 1, 1, 1, 0, 1, 1, 0, 1],
    [1, 0, 0, 0, 0, 0, 0, 0, 0, 0, 0, 0, 0, 0, 0, 0, 0, 0, 1],
    [1, 0, 1, 1, 0, 1, 0, 1, 1, 1, 1, 1, 0, 1, 0, 1, 1, 0, 1],
    [1, 0, 0, 0, 0, 1, 0, 0, 0, 1, 0, 0, 0, 1, 0, 0, 0, 0, 1],
    [1, 1, 1, 1, 0, 1, 1, 1, 0, 1, 0, 1, 1, 1, 0, 1, 1, 1, 1],
    [1, 1, 1, 1, 0, 1, 0, 0, 0, 0, 0, 0, 0, 1, 0, 1, 1, 1, 1],
    [1, 1, 1, 1, 0, 1, 0, 1, 3, 3, 3, 1, 0, 1, 0, 1, 1, 1, 1],
    [0, 0, 0, 0, 0, 0, 0, 1, 2, 2, 2, 1, 0, 0, 0, 0, 0, 0, 0],
    [1, 1, 1, 1, 0, 1, 0, 1, 1, 1, 1, 1, 0, 1, 0, 1, 1, 1, 1],
    [1, 1, 1, 1, 0, 1, 0, 0, 0, 0, 0, 0, 0, 1, 0, 1, 1, 1, 1],
    [1, 1, 1, 1, 0, 1, 0, 1, 1, 1, 1, 1, 0, 1, 0, 1, 1, 1, 1],
    [1, 0, 0, 0, 0, 0, 0, 0, 0, 1, 0, 0, 0, 0, 0, 0, 0, 0, 1],
    [1, 0, 1, 1, 0, 1, 1, 1, 0, 1, 0, 1, 1, 1, 0, 1, 1, 0, 1],
    [1, 0, 0, 1, 0, 0, 0, 0, 0, 0, 0, 0, 0, 0, 0, 1, 0, 0, 1],
    [1, 1, 0, 1, 0, 1, 0, 1, 1, 1, 1, 1, 0, 1, 0, 1, 0, 1, 1],
    [1, 0, 0, 0, 0, 1, 0, 0, 0, 1, 0, 0, 0, 1, 0, 0, 0, 0, 1],
    [1, 0, 1, 1, 1, 1, 1, 1, 0, 1, 0, 1, 1, 1, 1, 1, 1, 0, 1],
    [1, 0, 0, 0, 0, 0, 0, 0, 0, 0, 0, 0, 0, 0, 0, 0, 0, 0, 1]
  ]

  const PacmanSpawn: Pos := (16, 9)
  /** Ghost spawn cells, in the order Blinky, Pinky, Inky, Clyde. */
  const GhostSpawn: seq<Pos> := [(10, 8), (10, 9), (10, 10), (10, 11)]
  const GhostHouseExit: Pos := (9, 9)
  const PowerPelletPositions: seq<Pos> := [(1, 1), (1, 17), (16, 1), (16, 17)]
  const TunnelLeft: Pos := (10, 0)
  const TunnelRight: Pos := (10, 18)

  /** The value a BoardGenerator holds: its dimensions and its copy of the maze. */
  datatype BoardGenerator = BoardGenerator(rows: int, cols: int, maze: Grid)

  /** The stored dimensions are those of the stored maze. */
  predicate Consistent(b: BoardGenerator) {
    b.rows == |b.maze| && b.cols == |b.maze[0]|
  }

  /** A copy of the fixed template. */
  function GenerateMaze(): (g: Grid)
    ensures |g| == DefaultRows && |g[0]| == DefaultCols
  {
    OriginalPacmanMaze
  }

  /** The constructor ignores the requested dimensions: the map is fixed. */
  function NewBoardGenerator(rows: int, cols: int): (b: BoardGenerator)
    ensures Consistent(b)
    ensures b.rows == DefaultRows && b.cols == DefaultCols
    ensures b.maze == OriginalPacmanMaze
  {
    BoardGenerator(DefaultRows, DefaultCols, GenerateMaze())
  }

  // ---------------------------------------------------------------- collisions

  predicate IsValidPosition(b: BoardGenerator, row: int, col: int)
    requires Consistent(b)
  {
    0 <= row < b.rows && 0 <= col < b.cols
  }

  /** Outside the board counts as wall. */
  predicate IsWall(b: BoardGenerator, row: int, col: int)
    requires Consistent(b)
  {
    if !IsValidPosition(b, row, col) then true else b.maze[row][col] == Wall
  }

  predicate IsGhostDoor(b: BoardGenerator, row: int, col: int)
    requires Consistent(b)
  {
    if !IsValidPosition(b, row, col) then false else b.maze[row][col] == GhostDoor
  }

  predicate IsGhostHouse(b: BoardGenerator, row: int, col: int)
    requires Consistent(b)
  {
    if !IsValidPosition(b, row, col) then false else b.maze[row][col] == GhostHouse
  }

  /** Pac-Man may only enter PATH cells. */
  predicate CanPacmanMoveTo(b: BoardGenerator, row: int, col: int)
    requires Consistent(b)
  {
    if !IsValidPosition(b, row, col) then false else b.maze[row][col] == Path
  }

  /** Ghosts may enter PATH, house and door cells. */
  predicate CanGhostMoveTo(b: BoardGenerator, row: int, col: int)
    requires Consistent(b)
  {
    if !IsValidPosition(b, row, col) then false
    else b.maze[row][col] in {Path, GhostHouse, GhostDoor}
  }

  /** The test the entities apply to a maze they are handed: inside the rows,
      inside the width of row 0, and holding the value 0. */
  predicate IsOpenCell(maze: Grid, row: int, col: int) {
    0 <= row < |maze| && 0 <= col < |maze[0]| && maze[row][col] == 0
  }

  lemma ValidPositionIsTheBox(row: int, col: int)
    ensures IsValidPosition(NewBoardGenerator(DefaultRows, DefaultCols), row, col)
            <==> 0 <= row < 21 && 0 <= col < 19
  {
  }

  /** Every query gives its "blocked" answer outside the board. */
  lemma OutsideIsBlocked(b: BoardGenerator, row: int, col: int)
    requires Consistent(b) && !IsValidPosition(b, row, col)
    ensures IsWall(b, row, col)
    ensures !IsGhostDoor(b, row, col) && !IsGhostHouse(b, row, col)
    ensures !CanPacmanMoveTo(b, row, col) && !CanGhostMoveTo(b, row, col)
  {
  }

  /** Every cell Pac-Man can enter a ghost can enter too; Pac-Man's test is
      the open-cell test the entities use. */
  lemma PacmanCellsAreGhostCells(b: BoardGenerator, row: int, col: int)
    requires Consistent(b)
    ensures CanPacmanMoveTo(b, row, col) ==> CanGhostMoveTo(b, row, col)
    ensures CanPacmanMoveTo(b, row, col) <==> IsOpenCell(b.maze, row, col)
  {
  }

  /** Every cell of the template holds one of the four codes. */
  predicate HoldsOnlyCellCodes(g: Grid) {
    forall i, j :: 0 <= i < |g| && 0 <= j < |g[i]| ==> Path <= g[i][j] <= GhostDoor
  }

  lemma TemplateHoldsOnlyCellCodes()
    ensures HoldsOnlyCellCodes(OriginalPacmanMaze)
  {
  }

  /** On a maze of cell codes each in-bounds cell is exactly one of wall,
      path, house or door, and ghosts can enter exactly the non-wall cells. */
  lemma CellKindsPartitionTheBoard(b: BoardGenerator, row: int, col: int)
    requires Consistent(b) && HoldsOnlyCellCodes(b.maze) && IsValidPosition(b, row, col)
    ensures CanGhostMoveTo(b, row, col) <==> !IsWall(b, row, col)
    ensures CanGhostMoveTo(b, row, col) <==>
              CanPacmanMoveTo(b, row, col) || IsGhostHouse(b, row, col) || IsGhostDoor(b, row, col)
    ensures (if IsWall(b, row, col) then 1 else 0) + (if CanPacmanMoveTo(b, row, col) then 1 else 0)
          + (if IsGhostHouse(b, row, col) then 1 else 0) + (if IsGhostDoor(b, row, col) then 1 else 0) == 1
  {
  }

  // ------------------------------------------------------------------ pixels

  /** Centre pixel (x, y) of a cell; x follows the column, y the row. */
  function GetCellCenterPixel(row: int, col: int): (xy: (int, int))
    ensures col * TileSize <= xy.0 < col * TileSize + TileSize
    ensures row * TileSize <= xy.1 < row * TileSize + TileSize
    ensures xy.0 - col * TileSize == TileSize / 2 && xy.1 - row * TileSize == TileSize / 2
  {
    (col * TileSize + TileSize / 2, row * TileSize + TileSize / 2)
  }

  /** The cell holding pixel (x, y). Python's `//` floors; for the positive
      divisor TileSize Dafny's `/` is the same floor division. */
  function PixelToGrid(x: int, y: int): (rc: Pos)
    ensures rc.0 * TileSize <= y < rc.0 * TileSize + TileSize
    ensures rc.1 * TileSize <= x < rc.1 * TileSize + TileSize
  {
    (y / TileSize, x / TileSize)
  }

  /** The tile is determined by any pixel inside it. */
  lemma {:induction false} TileOfPixelIsUnique(a: int, b: int, v: int)
    requires a * TileSize <= v < a * TileSize + TileSize
    requires b * TileSize <= v < b * TileSize + TileSize
    ensures a == b
  {
  }

  /** Converting a cell to its centre pixel and back gives the cell again,
      for every integer coordinate. */
  lemma {:induction false} PixelRoundTrip(row: int, col: int)
    ensures var xy := GetCellCenterPixel(row, col); PixelToGrid(xy.0, xy.1) == (row, col)
  {
    var xy := GetCellCenterPixel(row, col);
    var rc := PixelToGrid(xy.0, xy.1);
    TileOfPixelIsUnique(rc.0, row, xy.1);
    TileOfPixelIsUnique(rc.1, col, xy.0);
  }

  /** A pixel maps to a cell exactly when it lies inside that cell's tile. */
  lemma {:induction false} PixelToGridIffInsideTile(x: int, y: int, row: int, col: int)
    ensures PixelToGrid(x, y) == (row, col) <==>
              row * TileSize <= y < row * TileSize + TileSize && col * TileSize <= x < col * TileSize + TileSize
  {
    var rc := PixelToGrid(x, y);
    if row * TileSize <= y < row * TileSize + TileSize && col * TileSize <= x < col * TileSize + TileSize {
      TileOfPixelIsUnique(rc.0, row, y);
      TileOfPixelIsUnique(rc.1, col, x);
    }
  }

  // ----------------------------------------------------------------- tunnels

  /** Leaving the board sideways on the tunnel row re-enters on the other side. */
  function HandleTunnelTeleport(b: BoardGenerator, row: int, col: int): (rc: Pos)
    requires Consistent(b)
    ensures rc.0 == row
  {
    if row == TunnelLeft.0 && col < 0 then (row, b.cols - 1)
    else if row == TunnelRight.0 && col >= b.cols then (row, 0)
    else (row, col)
  }

  /** Only the tunnel row is affected, and there every column left of the
      board lands on the right edge and every column right of it on the left
      edge, so the result is always on the board; in-board columns are
      untouched. */
  lemma {:induction false} TunnelWrapsAround(b: BoardGenerator, row: int, col: int)
    requires Consistent(b) && b.cols > 0
    ensures row != TunnelLeft.0 ==> HandleTunnelTeleport(b, row, col) == (row, col)
    ensures 0 <= col < b.cols ==> HandleTunnelTeleport(b, row, col) == (row, col)
    ensures row == TunnelLeft.0 ==> 0 <= HandleTunnelTeleport(b, row, col).1 < b.cols
    ensures row == TunnelLeft.0 && col < 0 ==> HandleTunnelTeleport(b, row, col) == (row, b.cols - 1)
    ensures row == TunnelLeft.0 && col >= b.cols ==> HandleTunnelTeleport(b, row, col) == (row, 0)
  {
    assert TunnelLeft.0 == TunnelRight.0;
  }

  /** Teleporting twice is teleporting once. */
  lemma {:induction false} TunnelIdempotent(b: BoardGenerator, row: int, col: int)
    requires Consistent(b) && b.cols > 0
    ensures var rc := HandleTunnelTeleport(b, row, col);
            HandleTunnelTeleport(b, rc.0, rc.1) == rc
  {
    assert TunnelLeft.0 == TunnelRight.0;
  }

  /** On the template the two tunnel cells are open and each is where a step
      off the other edge comes back in. */
  lemma TemplateTunnelLinksItsEnds()
    ensures var b := NewBoardGenerator(DefaultRows, DefaultCols);
            && CanPacmanMoveTo(b, TunnelLeft.0, TunnelLeft.1)
            && CanPacmanMoveTo(b, TunnelRight.0, TunnelRight.1)
            && HandleTunnelTeleport(b, TunnelLeft.0, TunnelLeft.1 - 1) == TunnelRight
            && HandleTunnelTeleport(b, TunnelRight.0, TunnelRight.1 + 1) == TunnelLeft
  {
  }

  // -------------------------------------------------------------------- food

  /** PATH cells of row `i` among its first `n` columns, left to right. */
  function RowPaths(b: BoardGenerator, i: int, n: int): seq<Pos>
    requires Consistent(b) && 0 <= i < b.rows && 0 <= n <= b.cols
    decreases n
  {
    if n == 0 then []
    else RowPaths(b, i, n - 1) + (if b.maze[i][n - 1] == Path then [(i, n - 1)] else [])
  }

  /** PATH cells of the first `m` rows, in row-major order. */
  function PathsUpTo(b: BoardGenerator, m: int): seq<Pos>
    requires Consistent(b) && 0 <= m <= b.rows
    decreases m
  {
    if m == 0 then [] else PathsUpTo(b, m - 1) + RowPaths(b, m - 1, b.cols)
  }

  /** The list get_walkable_positions builds. */
  function Walkable(b: BoardGenerator): seq<Pos>
    requires Consistent(b)
  {
    PathsUpTo(b, b.rows)
  }

  /** Row-major order of cells. */
  predicate Precedes(p: Pos, q: Pos) {
    p.0 < q.0 || (p.0 == q.0 && p.1 < q.1)
  }

  predicate StrictlyRowMajor(s: seq<Pos>) {
    forall k, l :: 0 <= k < l < |s| ==> Precedes(s[k], s[l])
  }

  lemma {:induction false} RowPathsFacts(b: BoardGenerator, i: int, n: int)
    requires Consistent(b) && 0 <= i < b.rows && 0 <= n <= b.cols
    ensures forall p :: p in RowPaths(b, i, n) <==> p.0 == i && 0 <= p.1 < n && b.maze[i][p.1] == Path
    ensures StrictlyRowMajor(RowPaths(b, i, n))
    decreases n
  {
    if n > 0 {
      RowPathsFacts(b, i, n - 1);
      var s := RowPaths(b, i, n - 1);
      var t := RowPaths(b, i, n);
      if b.maze[i][n - 1] == Path {
        assert t == s + [(i, n - 1)];
        forall k, l | 0 <= k < l < |t| ensures Precedes(t[k], t[l]) {
          if l == |s| {
            assert t[k] == s[k] && t[k] in s;
          } else {
            assert t[k] == s[k] && t[l] == s[l];
          }
        }
      } else {
        assert t == s;
      }
    }
  }

  lemma {:induction false} PathsUpToFacts(b: BoardGenerator, m: int)
    requires Consistent(b) && 0 <= m <= b.rows
    ensures forall p :: p in PathsUpTo(b, m) <==>
              0 <= p.0 < m && 0 <= p.1 < b.cols && b.maze[p.0][p.1] == Path
    ensures StrictlyRowMajor(PathsUpTo(b, m))
    decreases m
  {
    if m > 0 {
      PathsUpToFacts(b, m - 1);
      RowPathsFacts(b, m - 1, b.cols);
      var s := PathsUpTo(b, m - 1);
      var r := RowPaths(b, m - 1, b.cols);
      var t := PathsUpTo(b, m);
      assert t == s + r;
      forall k, l | 0 <= k < l < |t| ensures Precedes(t[k], t[l]) {
        if l < |s| {
          assert t[k] == s[k] && t[l] == s[l];
        } else if k >= |s| {
          assert t[k] == r[k - |s|] && t[l] == r[l - |s|];
        } else {
          assert t[k] == s[k] && s[k] in s;
          assert t[l] == r[l - |s|] && r[l - |s|] in r;
        }
      }
    }
  }

  /** The walkable list holds exactly the PATH cells, each once, in
      row-major order. */
  lemma WalkableIsExactlyThePathCells(b: BoardGenerator)
    requires Consistent(b)
    ensures forall p :: p in Walkable(b) <==> CanPacmanMoveTo(b, p.0, p.1)
    ensures StrictlyRowMajor(Walkable(b))
    ensures forall k, l :: 0 <= k < l < |Walkable(b)| ==> Walkable(b)[k] != Walkable(b)[l]
  {
    PathsUpToFacts(b, b.rows);
  }

  method GetWalkablePositions(b: BoardGenerator) returns (walkable: seq<Pos>)
    requires Consistent(b)
    ensures walkable == Walkable(b)
  {
    walkable := [];
    for i := 0 to b.rows
      invariant walkable == PathsUpTo(b, i)
    {
      for j := 0 to b.cols
        invariant walkable == PathsUpTo(b, i) + RowPaths(b, i, j)
      {
        if b.maze[i][j] == Path {
          walkable := walkable + [(i, j)];
        }
      }
    }
  }

  /** Food goes on every walkable cell that is not excluded; a missing
      exclusion set means no exclusions. */
  method PlaceAllFood(b: BoardGenerator, excludePositions: Option<set<Pos>>) returns (foodPositions: set<Pos>)
    requires Consistent(b)
    ensures var ex := if excludePositions.Some? then excludePositions.value else {};
            forall p :: p in foodPositions <==> CanPacmanMoveTo(b, p.0, p.1) && p !in ex
  {
    var ex := if excludePositions.Some? then excludePositions.value else {};
    var walkable := GetWalkablePositions(b);
    foodPositions := {};
    for k := 0 to |walkable|
      invariant forall p :: p in foodPositions <==> p in walkable[..k] && p !in ex
    {
      assert walkable[..k + 1] == walkable[..k] + [walkable[k]];
      if walkable[k] !in ex {
        foodPositions := foodPositions + {walkable[k]};
      }
    }
    assert walkable[..|walkable|] == walkable;
    WalkableIsExactlyThePathCells(b);
  }

  function GetPowerPellets(): (pellets: set<Pos>)
    ensures forall p :: p in pellets <==> p in PowerPelletPositions
    ensures |pellets| == |PowerPelletPositions|
  {
    var pellets := set p | p in PowerPelletPositions;
    assert pellets == {(1, 1), (1, 17), (16, 1), (16, 17)};
    pellets
  }

  datatype SpawnPositions = SpawnPositions(pacman: Pos, ghosts: seq<Pos>, ghostExit: Pos, powerPellets: seq<Pos>)

  function GetSpawnPositions(): (s: SpawnPositions)
    ensures |s.ghosts| == 4 && |s.powerPellets| == 4
  {
    SpawnPositions(PacmanSpawn, GhostSpawn, GhostHouseExit, PowerPelletPositions)
  }

  /** What the fixed positions are on the template: Pac-Man's spawn and the
      power pellets are PATH cells, the exit is the door, the first three
      ghost spawns are inside the house and the fourth is a WALL cell. */
  lemma TemplateSpawnCellKinds()
    ensures var b := NewBoardGenerator(DefaultRows, DefaultCols);
            var s := GetSpawnPositions();
            && CanPacmanMoveTo(b, s.pacman.0, s.pacman.1)
            && IsGhostDoor(b, s.ghostExit.0, s.ghostExit.1)
            && (forall k :: 0 <= k < 3 ==> IsGhostHouse(b, s.ghosts[k].0, s.ghosts[k].1))
            && IsWall(b, s.ghosts[3].0, s.ghosts[3].1)
            && (forall p :: p in GetPowerPellets() ==> CanPacmanMoveTo(b, p.0, p.1))
  {
  }

  // --------------------------------------------------------------- neighbours

  predicate Admits(b: BoardGenerator, forGhost: bool, p: Pos)
    requires Consistent(b)
  {
    if forGhost then CanGhostMoveTo(b, p.0, p.1) else CanPacmanMoveTo(b, p.0, p.1)
  }

  /** Admitted cells among the first `k` steps of the scan order from `from`. */
  function NeighborsUpTo(b: BoardGenerator, from: Pos, forGhost: bool, k: int): seq<Pos>
    requires Consistent(b) && 0 <= k <= 4
    decreases k
  {
    if k == 0 then []
    else
      var p := Add(from, Directions[k - 1]);
      NeighborsUpTo(b, from, forGhost, k - 1) + (if Admits(b, forGhost, p) then [p] else [])
  }

  predicate InScanOrder(from: Pos, s: seq<Pos>) {
    forall k, l :: 0 <= k < l < |s| ==> DirIndex(Delta(from, s[k])) < DirIndex(Delta(from, s[l]))
  }

  /** The k-th step of the scan order is the only step with index k. */
  lemma StepHasItsIndex(from: Pos, k: int, q: Pos)
    requires 0 <= k < 4
    ensures DirIndex(Delta(from, Add(from, Directions[k]))) == k
    ensures DirIndex(Delta(from, q)) == k ==> q == Add(from, Directions[k])
  {
  }

  /** A scan that has seen only steps below k stays in scan order when the
      k-th step is appended. */
  lemma AppendKeepsScanOrder(from: Pos, s: seq<Pos>, k: int)
    requires 0 <= k < 4 && InScanOrder(from, s)
    requires forall q :: q in s ==> DirIndex(Delta(from, q)) < k
    ensures InScanOrder(from, s + [Add(from, Directions[k])])
  {
    var p := Add(from, Directions[k]);
    var t := s + [p];
    StepHasItsIndex(from, k, p);
    forall i, j | 0 <= i < j < |t| ensures DirIndex(Delta(from, t[i])) < DirIndex(Delta(from, t[j])) {
      assert t[i] == s[i] && s[i] in s;
      if j < |s| { assert t[j] == s[j]; } else { assert t[j] == p; }
    }
  }

  lemma {:induction false} NeighborsUpToFacts(b: BoardGenerator, from: Pos, forGhost: bool, k: int)
    requires Consistent(b) && 0 <= k <= 4
    ensures |NeighborsUpTo(b, from, forGhost, k)| <= k
    ensures forall p :: p in NeighborsUpTo(b, from, forGhost, k) <==>
              DirIndex(Delta(from, p)) < k && Admits(b, forGhost, p)
    decreases k
  {
    if k > 0 {
      NeighborsUpToFacts(b, from, forGhost, k - 1);
      var s := NeighborsUpTo(b, from, forGhost, k - 1);
      var p := Add(from, Directions[k - 1]);
      var t := NeighborsUpTo(b, from, forGhost, k);
      assert t == s + (if Admits(b, forGhost, p) then [p] else []);
      forall q ensures q in t <==> DirIndex(Delta(from, q)) < k && Admits(b, forGhost, q) {
        StepHasItsIndex(from, k - 1, q);
      }
    }
  }

  lemma {:induction false} NeighborsInScanOrder(b: BoardGenerator, from: Pos, forGhost: bool, k: int)
    requires Consistent(b) && 0 <= k <= 4
    ensures InScanOrder(from, NeighborsUpTo(b, from, forGhost, k))
    decreases k
  {
    if k > 0 {
      NeighborsInScanOrder(b, from, forGhost, k - 1);
      NeighborsUpToFacts(b, from, forGhost, k - 1);
      var s := NeighborsUpTo(b, from, forGhost, k - 1);
      var p := Add(from, Directions[k - 1]);
      var t := NeighborsUpTo(b, from, forGhost, k);
      if Admits(b, forGhost, p) {
        assert t == s + [p];
        AppendKeepsScanOrder(from, s, k - 1);
      } else {
        assert t == s + [];
      }
    }
  }

  method GetNeighbors(b: BoardGenerator, row: int, col: int, forGhost: bool) returns (neighbors: seq<Pos>)
    requires Consistent(b)
    ensures |neighbors| <= 4
    ensures forall p :: p in neighbors <==> Adjacent((row, col), p) && Admits(b, forGhost, p)
    ensures InScanOrder((row, col), neighbors)
  {
    neighbors := [];
    for k := 0 to 4
      invariant neighbors == NeighborsUpTo(b, (row, col), forGhost, k)
    {
      var (dr, dc) := Directions[k];
      var newRow, newCol := row + dr, col + dc;
      if forGhost {
        if CanGhostMoveTo(b, newRow, newCol) {
          neighbors := neighbors + [(newRow, newCol)];
        }
      } else {
        if CanPacmanMoveTo(b, newRow, newCol) {
          neighbors := neighbors + [(newRow, newCol)];
        }
      }
    }
    NeighborsUpToFacts(b, (row, col), forGhost, 4);
    NeighborsInScanOrder(b, (row, col), forGhost, 4);
    forall p ensures Adjacent((row, col), p) <==> DirIndex(Delta((row, col), p)) < 4 {
      AdjacentIffUnitStep((row, col), p);
    }
  }
}
