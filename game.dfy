/** The orchestrator of core/game.py: game states, level setup, input
    gating and the per-frame update (power-pellet timer, Pac-Man's step,
    the ghosts' moves, collisions and level completion). */
module Game {
  import opened Common
  import opened Board
  import opened Player
  import opened Ghosts

  datatype GameState = Menu | Playing | GameOver | Paused

  const BaseFps := 60
  const MaxFps := 120
  const GhostPoints := 200
  const StartingLives := 3

  /** The kinds of the four ghosts, in the order the level creates them. */
  const GhostOrder: seq<GhostKind> := [Blinky, Pinky, Inky, Clyde]

  // ------------------------------------------------------------------ speed

  /** min(120, 60 + 10 (level - 1)). */
  function Fps(level: int): (fps: int)
    ensures fps <= MaxFps
    ensures level >= 1 ==> BaseFps <= fps
    ensures fps == MaxFps || fps == BaseFps + (level - 1) * 10
  {
    var raw := BaseFps + (level - 1) * 10;
    if raw < MaxFps then raw else MaxFps
  }

  /** A later level never runs slower, and level 7 and above run at the cap. */
  lemma FpsIsMonotone(level: int, later: int)
    requires level <= later
    ensures Fps(level) <= Fps(later)
    ensures later >= 7 ==> Fps(later) == MaxFps
  {
  }

  // ------------------------------------------------------------ level setup

  /** Cells kept free of food: Pac-Man's spawn, every ghost spawn and the
      power pellets still on the board. */
  function LevelExclusions(pellets: set<Pos>): set<Pos> {
    {PacmanSpawn} + (set p | p in GhostSpawn) + pellets
  }

  /** Where every entity stands when a level begins. */
  function SpawnedGhost(k: int): GhostView
    requires 0 <= k < |GhostSpawn|
  {
    GhostView(GhostSpawn[k], 0, (0, 0), false, 0, 0)
  }

  /** The spawn formation is a ready world on any playable board. */
  lemma SpawnIsReady(b: BoardGenerator, w: World)
    requires Playable(b) && w.pac.position == PacmanSpawn
    requires w.ghosts == SpawnFormation
    ensures WorldReady(b.maze, w)
  {
    PacmanCellsAreGhostCells(b, PacmanSpawn.0, PacmanSpawn.1);
    assert forall i :: 0 <= i < 4 ==> w.ghosts[i].position in GhostSpawn;
  }

  /** The four ghosts as a level begins, in creation order. */
  const SpawnFormation: seq<GhostView> := [SpawnedGhost(0), SpawnedGhost(1), SpawnedGhost(2), SpawnedGhost(3)]

  // ----------------------------------------------------------- Pac-Man step

  datatype PacStep = PacStep(pac: PacView, food: set<Pos>, pellets: set<Pos>)

  /** Pac-Man's part of one update: along the facing when that cell is open
      (move then records the facing as the queued direction); otherwise along
      the queued direction when that cell is open, adopting it; otherwise no
      step. Eating follows EatAt. */
  function PacmanStep(maze: Grid, p: PacView, food: set<Pos>, pellets: set<Pos>): PacStep {
    var facing := Add(p.position, Offset(p.direction));
    var queued := Add(p.position, Offset(p.nextDirection));
    if IsOpenCell(maze, facing.0, facing.1) then
      var e := EatAt(facing, food, pellets);
      PacStep(p.(position := facing, nextDirection := p.direction, score := p.score + e.points), e.food, e.pellets)
    else if IsOpenCell(maze, queued.0, queued.1) then
      var e := EatAt(queued, food, pellets);
      PacStep(p.(position := queued, direction := p.nextDirection, score := p.score + e.points), e.food, e.pellets)
    else
      PacStep(p, food, pellets)
  }

  /** Pac-Man's step keeps him on open cells, keeps his lives, moves him by
      the offset of his new facing, and eats at most one item, whose value is
      exactly what the score gains. */
  lemma {:induction false} PacmanStepFacts(maze: Grid, p: PacView, food: set<Pos>, pellets: set<Pos>)
    ensures var r := PacmanStep(maze, p, food, pellets);
            && r.pac.lives == p.lives
            && (r.pac.position == p.position || IsOpenCell(maze, r.pac.position.0, r.pac.position.1))
            && (IsOpenCell(maze, p.position.0, p.position.1) ==> IsOpenCell(maze, r.pac.position.0, r.pac.position.1))
            && (r.pac.position != p.position ==> r.pac.position == Add(p.position, Offset(r.pac.direction)))
            && r.food <= food && r.pellets <= pellets
            && (food - r.food) + (pellets - r.pellets) <= {r.pac.position}
            && r.pac.score - p.score == FoodPoints * |food - r.food| + PowerPelletPoints * |pellets - r.pellets|
  {
    var r := PacmanStep(maze, p, food, pellets);
    EatAtAccounting(r.pac.position, food, pellets);
  }

  /** The update's choice in terms of move: move is called with the facing
      (adopting the queued direction first when the facing is blocked), and
      its first attempt then succeeds. */
  lemma {:induction false} PacmanStepIsMove(maze: Grid, p: PacView, food: set<Pos>, pellets: set<Pos>)
    ensures var facing := Add(p.position, Offset(p.direction));
            var queued := Add(p.position, Offset(p.nextDirection));
            var r := PacmanStep(maze, p, food, pellets);
            if IsOpenCell(maze, facing.0, facing.1) then
              var o := MoveOutcomeOf(maze, p.position, p.direction, p.direction, p.score, food, pellets);
              o.moved && r == PacStep(PacView(o.position, o.direction, p.direction, o.score, p.lives), o.food, o.pellets)
            else if IsOpenCell(maze, queued.0, queued.1) then
              var o := MoveOutcomeOf(maze, p.position, p.nextDirection, p.nextDirection, p.score, food, pellets);
              o.moved && r == PacStep(PacView(o.position, o.direction, p.nextDirection, o.score, p.lives), o.food, o.pellets)
            else r == PacStep(p, food, pellets)
  {
  }

  /** A facing that is not one of the four names never moves Pac-Man again:
      his own cell counts as the open cell ahead, so each update keeps him in
      place and move overwrites the queued direction with that facing,
      whatever was requested. */
  lemma {:induction false} NamelessFacingFreezes(maze: Grid, p: PacView, food: set<Pos>, pellets: set<Pos>)
    requires Offset(p.direction) == (0, 0) && IsOpenCell(maze, p.position.0, p.position.1)
    ensures var r := PacmanStep(maze, p, food, pellets);
            r.pac.position == p.position && r.pac.direction == p.direction && r.pac.nextDirection == p.direction
  {
    assert Add(p.position, Offset(p.direction)) == p.position;
  }

  /** While the cell ahead is open, the update steps there and move
      re-queues the facing: whatever was queued before is discarded, so a
      turn is taken only once Pac-Man is blocked. */
  lemma {:induction false} OpenFacingDiscardsTurn(maze: Grid, p: PacView, food: set<Pos>, pellets: set<Pos>)
    requires var facing := Add(p.position, Offset(p.direction)); IsOpenCell(maze, facing.0, facing.1)
    ensures var r := PacmanStep(maze, p, food, pellets);
            && r.pac.position == Add(p.position, Offset(p.direction))
            && r.pac.direction == p.direction && r.pac.nextDirection == p.direction
            && (p.nextDirection != p.direction ==> r.pac.nextDirection != p.nextDirection)
  {
  }

  /** On the template (6, 12) is open and the cell east of it is a wall. */
  lemma WallEastOfRespawnSpot()
    ensures IsOpenCell(OriginalPacmanMaze, 6, 12) && !IsOpenCell(OriginalPacmanMaze, 6, 13)
  {
    var m := OriginalPacmanMaze;
    assert m[6][12] == 0 && m[6][13] == 1;
  }

  /** Every cell of the respawn box that Pac-Man may enter is a respawn
      candidate. */
  lemma OpenBoxCellIsCandidate(b: BoardGenerator, p: Pos)
    requires Consistent(b) && InRespawnBox(p) && CanPacmanMoveTo(b, p.0, p.1)
    ensures p in RespawnCandidates(Walkable(b))
  {
    WalkableIsExactlyThePathCells(b);
  }

  /** (6, 12) is one of the cells Pac-Man may respawn on. */
  lemma RespawnSpotIsCandidate()
    ensures (6, 12) in RespawnCandidates(Walkable(NewBoardGenerator(DefaultRows, DefaultCols)))
  {
    var b := NewBoardGenerator(DefaultRows, DefaultCols);
    WallEastOfRespawnSpot();
    PacmanCellsAreGhostCells(b, 6, 12);
    OpenBoxCellIsCandidate(b, (6, 12));
  }

  /** How a respawn reaches such a facing: after a respawn on (6, 12), whose
      east neighbour is a wall, the first update with nothing queued adopts
      the missing direction and stays put. */
  lemma RespawnNextToWallFreezes(food: set<Pos>, pellets: set<Pos>, score: int, lives: int)
    ensures var r := PacmanStep(OriginalPacmanMaze, PacView((6, 12), Some(Right), None, score, lives), food, pellets);
            r.pac.position == (6, 12) && r.pac.direction == None && r.pac.nextDirection == None
  {
    WallEastOfRespawnSpot();
    assert Add((6, 12), Offset(Some(Right))) == (6, 13);
    assert Add((6, 12), Offset(None)) == (6, 12);
  }

  // ------------------------------------------------------------- collisions

  /** A ghost on Pac-Man's cell that is not vulnerable costs a life. */
  predicate Deadly(g: GhostView, pacman: Pos) {
    g.position == pacman && !g.isVulnerable
  }

  /** The index of the first deadly ghost, or the number of ghosts if none;
      the collision loop stops there. */
  function FirstDeadly(ghosts: seq<GhostView>, pacman: Pos): (k: nat)
    ensures k <= |ghosts|
    ensures k < |ghosts| ==> Deadly(ghosts[k], pacman)
    ensures forall j :: 0 <= j < k ==> !Deadly(ghosts[j], pacman)
    decreases |ghosts|
  {
    if ghosts == [] then 0
    else if Deadly(ghosts[0], pacman) then 0
    else 1 + FirstDeadly(ghosts[1..], pacman)
  }

  /** The number of ghosts among the first k that stand on Pac-Man's cell. */
  function Captures(ghosts: seq<GhostView>, pacman: Pos, k: int): nat
    requires 0 <= k <= |ghosts|
    decreases k
  {
    if k == 0 then 0 else Captures(ghosts, pacman, k - 1) + (if ghosts[k - 1].position == pacman then 1 else 0)
  }

  /** Ghosts met before the first deadly one are all vulnerable, so they are
      eaten; with no vulnerable ghost nothing is eaten and meeting any ghost
      costs a life. */
  lemma {:induction false} CollisionOutcomes(ghosts: seq<GhostView>, pacman: Pos)
    ensures forall j :: 0 <= j < FirstDeadly(ghosts, pacman) && ghosts[j].position == pacman ==> ghosts[j].isVulnerable
    ensures Captures(ghosts, pacman, FirstDeadly(ghosts, pacman)) <= FirstDeadly(ghosts, pacman)
    ensures (forall j :: 0 <= j < |ghosts| ==> !ghosts[j].isVulnerable) ==>
              && Captures(ghosts, pacman, FirstDeadly(ghosts, pacman)) == 0
              && (FirstDeadly(ghosts, pacman) < |ghosts| <==> exists j :: 0 <= j < |ghosts| && ghosts[j].position == pacman)
  {
    var k := FirstDeadly(ghosts, pacman);
    CapturesBound(ghosts, pacman, k);
    if forall j :: 0 <= j < |ghosts| ==> !ghosts[j].isVulnerable {
      NoCapturesWithoutVulnerable(ghosts, pacman, k);
    }
  }

  lemma {:induction false} CapturesBound(ghosts: seq<GhostView>, pacman: Pos, k: int)
    requires 0 <= k <= |ghosts|
    ensures Captures(ghosts, pacman, k) <= k
    decreases k
  {
    if k > 0 {
      CapturesBound(ghosts, pacman, k - 1);
    }
  }

  lemma {:induction false} NoCapturesWithoutVulnerable(ghosts: seq<GhostView>, pacman: Pos, k: int)
    requires 0 <= k <= FirstDeadly(ghosts, pacman)
    requires forall j :: 0 <= j < |ghosts| ==> !ghosts[j].isVulnerable
    ensures Captures(ghosts, pacman, k) == 0
    decreases k
  {
    if k > 0 {
      NoCapturesWithoutVulnerable(ghosts, pacman, k - 1);
      assert !Deadly(ghosts[k - 1], pacman);
    }
  }

  /** An eaten ghost: flags and timers cleared, back on a spawn cell with no
      last direction; its move counter is kept. */
  predicate SentHome(before: GhostView, after: GhostView) {
    && after.position in GhostSpawn
    && after == Calmed(before).(position := after.position, lastDirection := (0, 0))
  }

  /** A ghost after the collision check: sent home when it stood on
      Pac-Man's cell, untouched otherwise. */
  predicate Resolved(before: GhostView, after: GhostView, pacman: Pos) {
    if before.position == pacman then SentHome(before, after) else after == before
  }

  /** Losing a life: one life fewer; with lives left the state is kept and
      Pac-Man respawns on a random cell of `walkable` inside the box (or
      stays put when there is none); without, the game is over and he stays
      put. */
  predicate LifeLost(walkable: seq<Pos>, before: PacView, state: GameState, after: PacView, state': GameState) {
    && after.lives == before.lives - 1
    && (after.lives > 0 ==>
          && state' == state
          && var candidates := RespawnCandidates(walkable);
             if candidates == [] then after == before.(lives := after.lives)
             else after == PacView(after.position, Some(Right), None, before.score, after.lives)
                  && after.position in candidates)
    && (after.lives <= 0 ==> state' == GameOver && after == before.(lives := after.lives))
  }

  /** The collision loop on values: the ghosts before the first deadly one
      are resolved, the rest untouched; each eaten ghost is worth 200 points;
      a deadly ghost costs a life. */
  predicate CollisionOutcome(
    walkable: seq<Pos>, views: seq<GhostView>, before: PacView, state: GameState,
    after: seq<GhostView>, pac: PacView, state': GameState)
  {
    var at := before.position;
    var k := FirstDeadly(views, at);
    && |after| == |views|
    && (forall i :: 0 <= i < k ==> Resolved(views[i], after[i], at))
    && (forall i :: k <= i < |views| ==> after[i] == views[i])
    && var scored := before.(score := before.score + GhostPoints * Captures(views, at, k));
       if k == |views| then pac == scored && state' == state
       else LifeLost(walkable, scored, state, pac, state')
  }

  /** The box Pac-Man may respawn in: rows 3..17, columns 3..15. */
  predicate InRespawnBox(p: Pos) {
    3 <= p.0 <= DefaultRows - 4 && 3 <= p.1 <= DefaultCols - 4
  }

  /** The walkable cells inside the respawn box, in their original order. */
  function RespawnCandidates(walkable: seq<Pos>): (c: seq<Pos>)
    ensures forall p :: p in c <==> p in walkable && InRespawnBox(p)
    ensures |c| <= |walkable|
    decreases |walkable|
  {
    if walkable == [] then []
    else (if InRespawnBox(walkable[0]) then [walkable[0]] else []) + RespawnCandidates(walkable[1..])
  }

  /** Every respawn cell is open to Pac-Man. */
  lemma RespawnCellsAreOpen(b: BoardGenerator)
    requires Consistent(b)
    ensures forall p :: p in RespawnCandidates(Walkable(b)) ==> IsOpenCell(b.maze, p.0, p.1)
  {
    WalkableIsExactlyThePathCells(b);
    forall p | p in Walkable(b) ensures IsOpenCell(b.maze, p.0, p.1) {
      PacmanCellsAreGhostCells(b, p.0, p.1);
    }
  }

  /** A ghost stands on a spawn cell or on an open cell. */
  predicate GhostWhereabouts(maze: Grid, p: Pos) {
    p in GhostSpawn || IsOpenCell(maze, p.0, p.1)
  }

  /** What a level needs of its board: a consistent board on which
      Pac-Man's spawn is open. The constructor fixes the board to the
      template, which has this property. */
  predicate Playable(b: BoardGenerator) {
    Consistent(b) && CanPacmanMoveTo(b, PacmanSpawn.0, PacmanSpawn.1)
  }

  lemma TemplateIsPlayable()
    ensures Playable(NewBoardGenerator(DefaultRows, DefaultCols))
  {
    TemplateSpawnCellKinds();
  }

  /** Both exits of the collision loop, at the first deadly ghost, meet the
      outcome. */
  lemma CollisionOutcomeIntro(
    walkable: seq<Pos>, views: seq<GhostView>, before: PacView, state: GameState,
    after: seq<GhostView>, pac: PacView, state': GameState, i: nat)
    requires |views| == |after| && i == FirstDeadly(views, before.position)
    requires forall j :: 0 <= j < i ==> Resolved(views[j], after[j], before.position)
    requires forall j :: i <= j < |views| ==> after[j] == views[j]
    requires var scored := before.(score := before.score + GhostPoints * Captures(views, before.position, i));
             if i == |views| then pac == scored && state' == state
             else LifeLost(walkable, scored, state, pac, state')
    ensures CollisionOutcome(walkable, views, before, state, after, pac, state')
  {
  }

  // -------------------------------------------------------------- one frame

  /** The part of the game one frame works on, as values: the game state,
      both item sets, the power-pellet flag and timer, Pac-Man and the four
      ghosts. */
  datatype World = World(
    state: GameState, food: set<Pos>, pellets: set<Pos>, active: bool, timer: int,
    pac: PacView, ghosts: seq<GhostView>)

  /** Every ghost has its cadence counter in range and stands on a spawn
      cell or an open cell. */
  predicate GhostsPlaced(maze: Grid, views: seq<GhostView>) {
    forall j :: 0 <= j < |views| ==> 0 <= views[j].moveCounter < MoveEvery && GhostWhereabouts(maze, views[j].position)
  }

  /** Pac-Man on an open cell and four placed ghosts. */
  predicate WorldReady(maze: seq<seq<int>>, w: World) {
    && IsRectangular(maze)
    && IsOpenCell(maze, w.pac.position.0, w.pac.position.1)
    && |w.ghosts| == 4
    && GhostsPlaced(maze, w.ghosts)
  }

  /** Every cell Pac-Man may respawn on is open. */
  predicate RespawnsOpen(maze: seq<seq<int>>, walkable: seq<Pos>) {
    IsRectangular(maze) && forall p :: p in RespawnCandidates(walkable) ==> IsOpenCell(maze, p.0, p.1)
  }

  /** No power pellet is active and no ghost is vulnerable. */
  predicate Quiet(w: World) {
    !w.active && forall i :: 0 <= i < |w.ghosts| ==> IsCalm(w.ghosts[i])
  }

  function CalmAll(views: seq<GhostView>): (r: seq<GhostView>)
    ensures |r| == |views| && forall i :: 0 <= i < |views| ==> r[i] == Calmed(views[i])
  {
    seq(|views|, i requires 0 <= i < |views| => Calmed(views[i]))
  }

  /** The power-pellet countdown of one frame. */
  function Expire(w: World): World {
    if !w.active then w
    else if w.timer - 1 > 0 then w.(timer := w.timer - 1)
    else w.(timer := w.timer - 1, active := false, ghosts := CalmAll(w.ghosts))
  }

  /** Pac-Man's step of one frame. */
  function PacPhase(maze: Grid, w: World): World {
    var r := PacmanStep(maze, w.pac, w.food, w.pellets);
    w.(pac := r.pac, food := r.food, pellets := r.pellets)
  }

  /** The ghosts' moves of one frame: each ghost, in order, takes one move
      call seeing Pac-Man's cell and facing; nothing else changes. */
  ghost predicate GhostsMoved(maze: Grid, w: World, w': World) {
    && |w.ghosts| == 4 && |w'.ghosts| == 4
    && w' == w.(ghosts := w'.ghosts)
    && forall i :: 0 <= i < 4 ==>
         GhostStep(GhostOrder[i], maze, Some(w.pac.position), w.pac.direction, w.ghosts[i], w'.ghosts[i])
  }

  /** The collision check of one frame; the item sets and the power pellet
      are not touched. */
  predicate Collided(walkable: seq<Pos>, w: World, w': World) {
    && w' == w.(state := w'.state, pac := w'.pac, ghosts := w'.ghosts)
    && CollisionOutcome(walkable, w.ghosts, w.pac, w.state, w'.ghosts, w'.pac, w'.state)
  }

  /** The phases of one frame of update, in order: the countdown,
      Pac-Man's step, the ghosts' moves (to some w3) and the collision
      check. */
  ghost predicate Frame(maze: Grid, walkable: seq<Pos>, w: World, w': World) {
    exists w3: World :: GhostsMoved(maze, PacPhase(maze, Expire(w)), w3) && Collided(walkable, w3, w')
  }

  /** The countdown keeps the board and Pac-Man as they are; it runs only
      while a pellet is active, and when it ends every ghost is calm. */
  lemma ExpireFacts(maze: seq<seq<int>>, w: World)
    ensures var w' := Expire(w);
            && w'.pac == w.pac && w'.food == w.food && w'.pellets == w.pellets && w'.state == w.state
            && |w'.ghosts| == |w.ghosts|
            && (forall i :: 0 <= i < |w.ghosts| ==>
                  w'.ghosts[i].position == w.ghosts[i].position && w'.ghosts[i].moveCounter == w.ghosts[i].moveCounter)
            && (w.active ==> w'.timer == w.timer - 1 && (w'.active <==> w'.timer > 0))
            && (!w.active ==> w' == w)
            && (w.active && !w'.active ==> forall i :: 0 <= i < |w'.ghosts| ==> IsCalm(w'.ghosts[i]))
            && (WorldReady(maze, w) ==> WorldReady(maze, w'))
            && (Quiet(w) ==> w' == w)
  {
  }

  /** Pac-Man's phase keeps the ghosts and the power pellet, keeps his
      lives and his open cell, never adds an item and scores exactly what
      it eats. */
  lemma {:induction false} PacPhaseFacts(maze: Grid, w: World)
    ensures var w' := PacPhase(maze, w);
            && w'.ghosts == w.ghosts && w'.active == w.active && w'.timer == w.timer && w'.state == w.state
            && w'.pac.lives == w.pac.lives
            && w'.food <= w.food && w'.pellets <= w.pellets
            && w'.pac.score - w.pac.score == FoodPoints * |w.food - w'.food| + PowerPelletPoints * |w.pellets - w'.pellets|
            && (WorldReady(maze, w) ==> WorldReady(maze, w'))
            && (Quiet(w) ==> Quiet(w'))
  {
    PacmanStepFacts(maze, w.pac, w.food, w.pellets);
  }

  /** The ghosts' phase keeps every counter in range and every ghost on a
      spawn cell or an open cell, and no move makes a calm ghost
      vulnerable. */
  lemma {:induction false} GhostsMovedFacts(maze: Grid, w: World, w': World)
    requires GhostsMoved(maze, w, w')
    ensures WorldReady(maze, w) ==> WorldReady(maze, w')
    ensures Quiet(w) ==> Quiet(w')
  {
    forall i | 0 <= i < 4 && 0 <= w.ghosts[i].moveCounter < MoveEvery
      ensures 0 <= w'.ghosts[i].moveCounter < MoveEvery
      ensures GhostWhereabouts(maze, w.ghosts[i].position) ==> GhostWhereabouts(maze, w'.ghosts[i].position)
      ensures IsCalm(w.ghosts[i]) ==> IsCalm(w'.ghosts[i])
    {
      GhostStepFacts(GhostOrder[i], maze, Some(w.pac.position), w.pac.direction, w.ghosts[i], w'.ghosts[i]);
    }
  }

  /** The collision phase keeps the item sets, costs at most one life,
      never lowers the score, ends playing or over, keeps every ghost
      placed and every calm ghost calm, and leaves Pac-Man on an open cell
      when every respawn cell is open. */
  lemma {:induction false} CollidedFacts(maze: seq<seq<int>>, walkable: seq<Pos>, w: World, w': World)
    requires Collided(walkable, w, w')
    ensures w'.food == w.food && w'.pellets == w.pellets && w'.active == w.active && w'.timer == w.timer
    ensures w.pac.lives - 1 <= w'.pac.lives <= w.pac.lives
    ensures w'.pac.score >= w.pac.score
    ensures w'.state == w.state || w'.state == GameOver
    ensures RespawnsOpen(maze, walkable) && WorldReady(maze, w) ==> WorldReady(maze, w')
    ensures Quiet(w) ==> Quiet(w')
  {
    var at := w.pac.position;
    var k := FirstDeadly(w.ghosts, at);
    if IsRectangular(maze) {
      assert forall j :: 0 <= j < |w.ghosts| && GhostWhereabouts(maze, w.ghosts[j].position) ==>
               GhostWhereabouts(maze, w'.ghosts[j].position);
    }
  }

  /** One frame, summed up: the state ends playing or over, at most one
      life is lost, the score never falls, no item is added, the ground
      rules of a level (Pac-Man on an open cell, ghosts placed) are kept,
      and a quiet game stays quiet. */
  lemma {:induction false} FrameSummary(maze: Grid, walkable: seq<Pos>, w: World, w': World)
    requires Frame(maze, walkable, w, w') && w.state == Playing
    ensures w'.state == Playing || w'.state == GameOver
    ensures w.pac.lives - 1 <= w'.pac.lives <= w.pac.lives
    ensures w'.pac.score >= w.pac.score
    ensures w'.food <= w.food && w'.pellets <= w.pellets
    ensures RespawnsOpen(maze, walkable) && WorldReady(maze, w) ==> WorldReady(maze, w')
    ensures Quiet(w) ==> Quiet(w')
  {
    var w3: World :| GhostsMoved(maze, PacPhase(maze, Expire(w)), w3) && Collided(walkable, w3, w');
    ExpireFacts(maze, w);
    PacPhaseFacts(maze, Expire(w));
    GhostsMovedFacts(maze, PacPhase(maze, Expire(w)), w3);
    CollidedFacts(maze, walkable, w3, w');
  }

  /** The moves before the collision check keep Pac-Man on an open cell
      and the ghosts placed. */
  lemma {:induction false} MovesKeepReady(maze: Grid, w: World)
    requires WorldReady(maze, w)
    ensures WorldReady(maze, PacPhase(maze, Expire(w)))
  {
    ExpireFacts(maze, w);
    PacPhaseFacts(maze, Expire(w));
  }

  lemma {:induction false} FrameKeepsReady(maze: Grid, walkable: seq<Pos>, w: World, w': World)
    requires Frame(maze, walkable, w, w') && RespawnsOpen(maze, walkable) && WorldReady(maze, w)
    ensures WorldReady(maze, w')
  {
    var w3: World :| GhostsMoved(maze, PacPhase(maze, Expire(w)), w3) && Collided(walkable, w3, w');
    MovesKeepReady(maze, w);
    GhostsMovedFacts(maze, PacPhase(maze, Expire(w)), w3);
    CollidedFacts(maze, walkable, w3, w');
  }

  // ------------------------------------------------------------- the engine

  /** One ghost of each kind, in order, on the first four spawn points;
      no ghost at all when fewer than four are given. */
  method SpawnGhosts(ghostSpawnPoints: seq<Pos>) returns (ghosts: seq<Ghost>)
    ensures |ghostSpawnPoints| < 4 ==> ghosts == []
    ensures |ghostSpawnPoints| >= 4 ==>
              && |ghosts| == 4
              && (forall i :: 0 <= i < 4 ==> fresh(ghosts[i]))
              && (forall i, j :: 0 <= i < j < 4 ==> ghosts[i] != ghosts[j])
              && (forall i :: 0 <= i < 4 ==>
                    && ghosts[i].View() == GhostView(ghostSpawnPoints[i], 0, (0, 0), false, 0, 0)
                    && ghosts[i].kind == GhostOrder[i] && ghosts[i].Valid())
  {
    ghosts := [];
    if |ghostSpawnPoints| >= 4 {
      var blinky := new Ghost(ghostSpawnPoints[0], Blinky);
      var pinky := new Ghost(ghostSpawnPoints[1], Pinky);
      var inky := new Ghost(ghostSpawnPoints[2], Inky);
      var clyde := new Ghost(ghostSpawnPoints[3], Clyde);
      ghosts := [blinky, pinky, inky, clyde];
    }
  }

  class GameCore {
    var gameState: GameState
    var level: int
    const baseFps: int
    const boardGen: BoardGenerator
    var maze: seq<seq<int>>
    var foodPositions: set<Pos>
    var powerPelletPositions: set<Pos>
    var pacman: PacMan?
    var ghosts: seq<Ghost>
    var walkablePositions: seq<Pos>
    const ghostHouse: seq<Pos>
    var powerPelletActive: bool
    var powerPelletTimer: int

    /** Holds in every state: before the first game there is no Pac-Man and
        the game is in the menu. */
    ghost predicate Valid()
      reads this, pacman, ghosts
    {
      && Fixed()
      && (pacman == null ==> gameState == Menu)
      && (pacman != null ==> Ready())
    }

    /** The parts that never change after construction. */
    ghost predicate Fixed()
      reads this
    {
      Playable(boardGen) && ghostHouse == GhostSpawn && baseFps == BaseFps
    }

    /** A level is set up: the fixed maze and its walkable cells, four
        distinct ghosts of the four kinds, and the entities placed. */
    ghost predicate Ready()
      reads this, pacman, ghosts
    {
      && BoardReady()
      && pacman != null
      && Cast()
      && WorldReady(maze, Snapshot())
    }

    ghost predicate BoardReady()
      reads this`maze, this`walkablePositions
    {
      Playable(boardGen) && maze == boardGen.maze && walkablePositions == Walkable(boardGen)
    }

    /** Four distinct ghosts, one of each kind, in creation order. */
    ghost predicate Cast()
      reads this`ghosts
    {
      && |ghosts| == 4
      && (forall i, j :: 0 <= i < j < 4 ==> ghosts[i] != ghosts[j])
      && (forall i :: 0 <= i < 4 ==> ghosts[i].kind == GhostOrder[i])
    }

    /** No power pellet is active and no ghost is vulnerable. Nothing in the
        code makes either true, so this holds from the first game on. */
    ghost predicate Dormant()
      reads this, ghosts
    {
      !powerPelletActive && forall i :: 0 <= i < |ghosts| ==> IsCalm(ghosts[i].View())
    }

    function GhostViews(): seq<GhostView>
      requires |ghosts| == 4
      reads this`ghosts, ghosts[0], ghosts[1], ghosts[2], ghosts[3]
    {
      [ghosts[0].View(), ghosts[1].View(), ghosts[2].View(), ghosts[3].View()]
    }

    function Snapshot(): World
      requires pacman != null && |ghosts| == 4
      reads this, pacman, ghosts[0], ghosts[1], ghosts[2], ghosts[3]
    {
      World(gameState, foodPositions, powerPelletPositions, powerPelletActive, powerPelletTimer,
            pacman.View(), GhostViews())
    }

    lemma DormantIsQuiet()
      requires pacman != null && |ghosts| == 4
      ensures Dormant() <==> Quiet(Snapshot())
    {
      ViewsAt();
    }

    lemma ViewsAt()
      requires |ghosts| == 4
      ensures forall j :: 0 <= j < 4 ==> GhostViews()[j] == ghosts[j].View()
    {
    }

    /** The three state queries: each holds in its own state only, so at most
        one of them holds at a time, and none holds in MENU. */
    predicate IsPlaying(): (r: bool)
      reads this
      ensures r ==> gameState != Menu && gameState != GameOver && gameState != Paused
    {
      gameState == Playing
    }

    predicate IsGameOver(): (r: bool)
      reads this
      ensures r ==> !IsPlaying() && gameState != Menu
    {
      gameState == GameOver
    }

    predicate IsPaused(): (r: bool)
      reads this
      ensures r ==> !IsPlaying() && !IsGameOver() && gameState != Menu
    {
      gameState == Paused
    }

    constructor ()
      ensures Valid() && Dormant() && boardGen == NewBoardGenerator(DefaultRows, DefaultCols)
      ensures gameState == Menu && level == 1 && pacman == null && ghosts == []
      ensures foodPositions == {} && powerPelletPositions == (set p | p in PowerPelletPositions)
      ensures powerPelletTimer == 0
    {
      gameState := Menu;
      level := 1;
      baseFps := BaseFps;
      boardGen := NewBoardGenerator(DefaultRows, DefaultCols);
      maze := [];
      foodPositions := {};
      powerPelletPositions := set p | p in PowerPelletPositions;
      pacman := null;
      ghosts := [];
      walkablePositions := [];
      ghostHouse := GhostSpawn;
      powerPelletActive := false;
      powerPelletTimer := 0;
      TemplateIsPlayable();
    }

    /** A fresh level on the fixed maze: new Pac-Man with three lives and no
        score, new ghosts on their spawns, food on every walkable cell but the
        exclusions. The power-pellet set is not refilled. */
    method SetupLevel()
      requires Fixed()
      modifies this
      ensures Valid() && Ready()
      ensures gameState == old(gameState) && level == old(level)
      ensures powerPelletPositions == old(powerPelletPositions)
      ensures powerPelletActive == old(powerPelletActive) && powerPelletTimer == old(powerPelletTimer)
      ensures fresh(pacman) && pacman.View() == PacView(PacmanSpawn, Some(Right), None, 0, StartingLives)
      ensures (forall i :: 0 <= i < 4 ==> fresh(ghosts[i])) && GhostViews() == SpawnFormation
      ensures forall p :: p in foodPositions <==>
                CanPacmanMoveTo(boardGen, p.0, p.1) && p !in LevelExclusions(powerPelletPositions)
    {
      // generate_maze hands out a fresh copy of the template, equal to the
      // copy the generator holds as its own maze
      var walkable := GetWalkablePositions(boardGen);
      var food := PlaceAllFood(boardGen, Some(LevelExclusions(powerPelletPositions)));
      var pac := new PacMan(PacmanSpawn, StartingLives);
      var gs := SpawnGhosts(GhostSpawn);
      maze, walkablePositions, pacman, ghosts, foodPositions := boardGen.maze, walkable, pac, gs, food;
      SpawnIsReady(boardGen, Snapshot());
    }

    method StartNewGame()
      requires Valid()
      modifies this
      ensures Valid() && Ready() && Dormant()
      ensures level == 1 && gameState == Playing && powerPelletTimer == 0
      ensures powerPelletPositions == old(powerPelletPositions)
      ensures fresh(pacman) && pacman.View() == PacView(PacmanSpawn, Some(Right), None, 0, StartingLives)
      ensures (forall i :: 0 <= i < 4 ==> fresh(ghosts[i])) && GhostViews() == SpawnFormation
      ensures forall p :: p in foodPositions <==>
                CanPacmanMoveTo(boardGen, p.0, p.1) && p !in LevelExclusions(powerPelletPositions)
    {
      level := 1;
      gameState := Playing;
      powerPelletActive := false;
      powerPelletTimer := 0;
      SetupLevel();
    }

    /** While playing the string is queued as Pac-Man's next direction,
        whatever it is; while paused only "PAUSE" resumes; otherwise nothing
        happens. */
    method HandleInput(direction: string)
      requires Valid()
      modifies this`gameState, pacman
      ensures Valid()
      ensures old(gameState) == Playing ==>
                gameState == Playing && pacman.View() == old(pacman.View()).(nextDirection := Some(FromName(direction)))
      ensures old(gameState) == Paused ==>
                gameState == (if direction == "PAUSE" then Playing else Paused) && (pacman != null ==> unchanged(pacman))
      ensures old(gameState) != Playing && old(gameState) != Paused ==> gameState == old(gameState) && (pacman != null ==> unchanged(pacman))
      ensures old(gameState) != Paused ==> gameState != Paused
    {
      if gameState == Playing {
        pacman.nextDirection := Some(FromName(direction));
      } else if gameState == Paused {
        if direction == "PAUSE" {
          gameState := Playing;
        }
      }
    }

    /** The power-pellet countdown; on expiry every ghost is calmed. */
    method ExpirePowerPellet()
      requires pacman != null && Cast()
      modifies this`powerPelletActive, this`powerPelletTimer, ghosts[0], ghosts[1], ghosts[2], ghosts[3]
      ensures Snapshot() == Expire(old(Snapshot()))
    {
      if powerPelletActive {
        powerPelletTimer := powerPelletTimer - 1;
        if powerPelletTimer <= 0 {
          powerPelletActive := false;
          CalmGhosts();
        }
      }
    }

    /** The loop over the ghosts at expiry: vulnerability and both timers
        cleared. */
    method CalmGhosts()
      requires Cast()
      modifies ghosts[0], ghosts[1], ghosts[2], ghosts[3]
      ensures GhostViews() == CalmAll(old(GhostViews()))
    {
      for i := 0 to |ghosts|
        invariant forall j :: 0 <= j < i ==> ghosts[j].View() == Calmed(old(ghosts[j].View()))
        invariant forall j :: i <= j < 4 ==> ghosts[j].View() == old(ghosts[j].View())
      {
        var g := ghosts[i];
        g.isVulnerable := false;
        g.vulnerableTimer := 0;
        g.frightenedTimer := 0;
      }
      ViewsAt();
    }

    method StepPacman()
      requires pacman != null && |ghosts| == 4 && IsRectangular(maze)
      modifies pacman, this`foodPositions, this`powerPelletPositions
      ensures Snapshot() == PacPhase(maze, old(Snapshot()))
    {
      ghost var before := pacman.View();
      ghost var r := PacmanStep(maze, before, foodPositions, powerPelletPositions);
      ghost var w0 := Snapshot();
      PacmanStepIsMove(maze, before, foodPositions, powerPelletPositions);
      var currentDir := Offset(pacman.direction);
      var newRow, newCol := pacman.position.0 + currentDir.0, pacman.position.1 + currentDir.1;
      var rows, cols := |maze|, |maze[0]|;
      if 0 <= newRow < rows && 0 <= newCol < cols && maze[newRow][newCol] == 0 {
        var _, food, pellets := pacman.Move(pacman.direction, maze, foodPositions, powerPelletPositions);
        foodPositions, powerPelletPositions := food, pellets;
      } else {
        var nextDir := Offset(pacman.nextDirection);
        var newRowNext, newColNext := pacman.position.0 + nextDir.0, pacman.position.1 + nextDir.1;
        if 0 <= newRowNext < rows && 0 <= newColNext < cols && maze[newRowNext][newColNext] == 0 {
          pacman.direction := pacman.nextDirection;
          var _, food, pellets := pacman.Move(pacman.direction, maze, foodPositions, powerPelletPositions);
          foodPositions, powerPelletPositions := food, pellets;
        }
      }
      assert pacman.View() == r.pac && foodPositions == r.food && powerPelletPositions == r.pellets;
      assert Snapshot() == w0.(pac := r.pac, food := r.food, pellets := r.pellets);
    }

    /** Every ghost takes one move call, in order, seeing Pac-Man's new cell
        and facing. */
    method MoveGhosts()
      requires pacman != null && Cast() && IsRectangular(maze) && GhostsPlaced(maze, GhostViews())
      modifies ghosts[0], ghosts[1], ghosts[2], ghosts[3]
      ensures GhostsMoved(maze, old(Snapshot()), Snapshot())
    {
      ViewsAt();
      for i := 0 to |ghosts|
        invariant forall j :: 0 <= j < i ==>
                    GhostStep(GhostOrder[j], maze, Some(pacman.position), pacman.direction,
                              old(ghosts[j].View()), ghosts[j].View())
        invariant forall j :: i <= j < 4 ==> ghosts[j].View() == old(ghosts[j].View())
      {
        var g := ghosts[i];
        g.Move(maze, Some(pacman.position), pacman.direction);
      }
    }

    /** After the first i ghosts: those before the first deadly one that
        stood on Pac-Man's cell are sent home, each worth 200 points, and
        the rest are untouched. */
    ghost predicate CollisionsSoFar(views: seq<GhostView>, before: PacView, state: GameState, i: int)
      reads this, pacman, ghosts
    {
      && pacman != null && |ghosts| == 4 && |views| == 4
      && 0 <= i <= FirstDeadly(views, before.position)
      && pacman.View() == before.(score := before.score + GhostPoints * Captures(views, before.position, i))
      && gameState == state
      && (forall j :: 0 <= j < i ==> Resolved(views[j], ghosts[j].View(), before.position))
      && (forall j :: i <= j < 4 ==> ghosts[j].View() == views[j])
    }

    /** The collision loop of update: each ghost on Pac-Man's cell is eaten
        when vulnerable; the first one that is not costs a life and ends the
        loop. */
    method ResolveCollisions()
      requires ghostHouse == GhostSpawn && pacman != null
      requires |ghosts| == 4 && forall a, b :: 0 <= a < b < 4 ==> ghosts[a] != ghosts[b]
      modifies this`gameState, pacman, ghosts[0], ghosts[1], ghosts[2], ghosts[3]
      ensures CollisionOutcome(walkablePositions, old(GhostViews()), old(pacman.View()), old(gameState),
                               GhostViews(), pacman.View(), gameState)
    {
      ghost var views := GhostViews();
      ghost var before := pacman.View();
      var i := 0;
      while i < |ghosts|
        invariant 0 <= i <= 4 && CollisionsSoFar(views, before, old(gameState), i)
        decreases 4 - i
      {
        var stop := Collide(i, views, before, old(gameState));
        if stop {
          return;
        }
        i := i + 1;
      }
      CollisionOutcomeIntro(walkablePositions, views, before, old(gameState), GhostViews(), pacman.View(), gameState, i);
    }

    /** The loop body for ghost i; stop tells whether it ended the loop. */
    method Collide(i: nat, ghost views: seq<GhostView>, ghost before: PacView, ghost state: GameState) returns (stop: bool)
      requires ghostHouse == GhostSpawn && i < 4
      requires |ghosts| == 4 && forall a, b :: 0 <= a < b < 4 ==> ghosts[a] != ghosts[b]
      requires CollisionsSoFar(views, before, state, i)
      modifies ghosts[i], pacman, this`gameState
      ensures !stop ==> CollisionsSoFar(views, before, state, i + 1)
      ensures stop ==> CollisionOutcome(walkablePositions, views, before, state, GhostViews(), pacman.View(), gameState)
    {
      var g := ghosts[i];
      if pacman.position == g.position {
        if g.isVulnerable {
          EatGhost(g);
          stop := false;
        } else {
          LoseLifeAndRespawn();
          stop := true;
          CollisionOutcomeIntro(walkablePositions, views, before, state, GhostViews(), pacman.View(), gameState, i);
        }
      } else {
        stop := false;
      }
    }

    /** A vulnerable ghost on Pac-Man's cell: calmed, sent to a random cell
        of the ghost house with no last direction, and worth 200 points. */
    method EatGhost(g: Ghost)
      requires pacman != null && ghostHouse == GhostSpawn
      modifies g, pacman`score
      ensures SentHome(old(g.View()), g.View())
      ensures pacman.score == old(pacman.score) + GhostPoints
    {
      g.isVulnerable := false;
      g.vulnerableTimer := 0;
      g.frightenedTimer := 0;
      var spawnCandidates := ghostHouse;
      if spawnCandidates != [] {
        assert spawnCandidates[0] in spawnCandidates;
        var newPos :| newPos in spawnCandidates;
        g.position := newPos;
        g.lastDirection := (0, 0);
      }
      pacman.score := pacman.score + GhostPoints;
    }

    /** Any other ghost on Pac-Man's cell. */
    method LoseLifeAndRespawn()
      requires pacman != null
      modifies pacman, this`gameState
      ensures LifeLost(walkablePositions, old(pacman.View()), old(gameState), pacman.View(), gameState)
    {
      var alive := pacman.LoseLife();
      if alive {
        var spawnCandidates := RespawnCandidates(walkablePositions);
        if spawnCandidates != [] {
          assert spawnCandidates[0] in spawnCandidates;
          var newPos :| newPos in spawnCandidates;
          pacman.ResetPosition(newPos);
        }
      } else {
        gameState := GameOver;
      }
    }

    /** The countdown, Pac-Man's step and the ghosts' moves. */
    method MoveEntities()
      requires pacman != null && Cast() && WorldReady(maze, Snapshot())
      modifies this`powerPelletActive, this`powerPelletTimer, this`foodPositions, this`powerPelletPositions,
               pacman, ghosts[0], ghosts[1], ghosts[2], ghosts[3]
      ensures GhostsMoved(maze, PacPhase(maze, Expire(old(Snapshot()))), Snapshot())
      ensures WorldReady(maze, Snapshot())
    {
      MovesKeepReady(maze, Snapshot());
      ExpirePowerPellet();
      StepPacman();
      ghost var w2 := Snapshot();
      MoveGhosts();
      GhostsMovedFacts(maze, w2, Snapshot());
    }

    /** The collision check as a step of the frame. */
    method CheckCollisions()
      requires ghostHouse == GhostSpawn && pacman != null && Cast()
      modifies this`gameState, pacman, ghosts[0], ghosts[1], ghosts[2], ghosts[3]
      ensures Collided(walkablePositions, old(Snapshot()), Snapshot())
      ensures maze == old(maze) && walkablePositions == old(walkablePositions) && pacman == old(pacman) && ghosts == old(ghosts)
    {
      ResolveCollisions();
    }

    /** The phases of one frame while playing; the level stays set up. */
    method PlayFrame()
      requires Fixed() && Ready()
      modifies this`powerPelletActive, this`powerPelletTimer, this`foodPositions, this`powerPelletPositions,
               this`gameState, pacman, ghosts[0], ghosts[1], ghosts[2], ghosts[3]
      ensures Ready()
      ensures Frame(maze, walkablePositions, old(Snapshot()), Snapshot())
    {
      ghost var w := Snapshot();
      MoveEntities();
      ghost var w3 := Snapshot();
      RespawnCellsAreOpen(boardGen);
      CheckCollisions();
      CollidedFacts(maze, walkablePositions, w3, Snapshot());
      assert GhostsMoved(maze, PacPhase(maze, Expire(w)), w3) && Collided(walkablePositions, w3, Snapshot());
    }

    /** One frame. Nothing happens unless the game is being played; then the
        phases run in order and, once both item sets are empty, the next
        level is set up. */
    method Update()
      requires Valid()
      modifies this, pacman, ghosts
      ensures Valid()
      ensures old(gameState) != Playing ==> unchanged(this) && (pacman != null ==> unchanged(pacman)) && unchanged(ghosts)
      ensures old(gameState) == Playing ==> gameState == Playing || gameState == GameOver
      ensures old(gameState) == Playing ==>
                && old(pacman) != null && |old(ghosts)| == 4 && Ready()
                && (level == old(level) || level == old(level) + 1)
      ensures old(gameState) == Playing && level == old(level) ==>
                && Frame(maze, walkablePositions, old(Snapshot()), Snapshot())
                && (foodPositions != {} || powerPelletPositions != {})
      ensures old(gameState) == Playing && level == old(level) + 1 ==>
                && (exists w: World :: Frame(boardGen.maze, old(walkablePositions), old(Snapshot()), w) && w.food == {} && w.pellets == {}
                                       && gameState == w.state)
                && fresh(pacman) && pacman.View() == PacView(PacmanSpawn, Some(Right), None, 0, StartingLives)
                && (forall i :: 0 <= i < 4 ==> fresh(ghosts[i])) && GhostViews() == SpawnFormation
                && powerPelletPositions == {}
                && (forall p :: p in foodPositions <==> CanPacmanMoveTo(boardGen, p.0, p.1) && p !in LevelExclusions({}))
    {
      if gameState != Playing {
        return;
      }
      ghost var w0 := Snapshot();
      PlayFrame();
      ghost var w := Snapshot();
      ghost var walkable := walkablePositions;
      assert Frame(boardGen.maze, walkable, w0, w);
      FrameSummary(boardGen.maze, walkable, w0, w);
      if foodPositions == {} && powerPelletPositions == {} {
        level := level + 1;
        SetupLevel();
        assert Frame(boardGen.maze, walkable, w0, w) && w.food == {} && w.pellets == {} && gameState == w.state;
      }
    }
  }
}
