/** The ghosts of entities/ghosts.py. The four subclasses share one state
    record and differ only in how they pick a step; here a single class
    carries a `kind` tag and the step choice dispatches on it. */
module Ghosts {
  import opened Common
  import opened Board
  import opened Player

  /** A ghost steps on every 20th call of move. */
  const MoveEvery := 20
  /** Inky flees when sqrt(d2) < 5, i.e. when the squared distance d2 < 25. */
  const InkyFleeRadiusSquared := 25
  /** Clyde flees when sqrt(d2) < 8, i.e. when d2 < 64. */
  const ClydeFleeRadiusSquared := 64
  /** Pinky aims this many cells ahead of Pac-Man. */
  const PinkyLookAhead := 2

  datatype GhostKind = Blinky | Pinky | Inky | Clyde

  /** The state of one ghost that the simulation reads and writes. */
  datatype GhostView = GhostView(
    position: Pos, moveCounter: int, lastDirection: (int, int),
    isVulnerable: bool, vulnerableTimer: int, frightenedTimer: int)

  // -------------------------------------------------------------- candidates

  /** The filter every ghost scan applies to a neighbour p: inside the maze,
      on a cell holding 0, and not back along the last step. */
  predicate GhostMay(maze: Grid, from: Pos, lastDirection: (int, int), p: Pos) {
    IsOpenCell(maze, p.0, p.1) && Delta(from, p) != (-lastDirection.0, -lastDirection.1)
  }

  /** Admissible cells among the first k steps of the scan order. */
  function CandidatesUpTo(maze: Grid, from: Pos, lastDirection: (int, int), k: int): seq<Pos>
    requires 0 <= k <= 4
    decreases k
  {
    if k == 0 then []
    else
      var p := Add(from, Directions[k - 1]);
      CandidatesUpTo(maze, from, lastDirection, k - 1) + (if GhostMay(maze, from, lastDirection, p) then [p] else [])
  }

  /** The list _get_valid_moves returns. */
  function ValidMoves(maze: Grid, from: Pos, lastDirection: (int, int)): seq<Pos> {
    CandidatesUpTo(maze, from, lastDirection, 4)
  }

  lemma {:induction false} CandidatesUpToFacts(maze: Grid, from: Pos, lastDirection: (int, int), k: int)
    requires 0 <= k <= 4
    ensures |CandidatesUpTo(maze, from, lastDirection, k)| <= k
    ensures forall p :: p in CandidatesUpTo(maze, from, lastDirection, k) <==>
              DirIndex(Delta(from, p)) < k && GhostMay(maze, from, lastDirection, p)
    decreases k
  {
    if k > 0 {
      CandidatesUpToFacts(maze, from, lastDirection, k - 1);
      var s := CandidatesUpTo(maze, from, lastDirection, k - 1);
      var p := Add(from, Directions[k - 1]);
      var t := CandidatesUpTo(maze, from, lastDirection, k);
      assert t == s + (if GhostMay(maze, from, lastDirection, p) then [p] else []);
      forall q ensures q in t <==> DirIndex(Delta(from, q)) < k && GhostMay(maze, from, lastDirection, q) {
        StepHasItsIndex(from, k - 1, q);
      }
    }
  }

  lemma {:induction false} CandidatesInScanOrder(maze: Grid, from: Pos, lastDirection: (int, int), k: int)
    requires 0 <= k <= 4
    ensures InScanOrder(from, CandidatesUpTo(maze, from, lastDirection, k))
    decreases k
  {
    if k > 0 {
      CandidatesInScanOrder(maze, from, lastDirection, k - 1);
      CandidatesUpToFacts(maze, from, lastDirection, k - 1);
      var s := CandidatesUpTo(maze, from, lastDirection, k - 1);
      var p := Add(from, Directions[k - 1]);
      var t := CandidatesUpTo(maze, from, lastDirection, k);
      if GhostMay(maze, from, lastDirection, p) {
        assert t == s + [p];
        AppendKeepsScanOrder(from, s, k - 1);
      } else {
        assert t == s + [];
      }
    }
  }

  /** One step of the scan: the k-th neighbour is appended when it passes. */
  lemma CandidatesStep(maze: Grid, from: Pos, lastDirection: (int, int), k: int)
    requires 0 <= k < 4
    ensures var p := Add(from, Directions[k]);
            CandidatesUpTo(maze, from, lastDirection, k + 1)
            == if GhostMay(maze, from, lastDirection, p) then CandidatesUpTo(maze, from, lastDirection, k) + [p]
               else CandidatesUpTo(maze, from, lastDirection, k)
  {
    var p := Add(from, Directions[k]);
    assert CandidatesUpTo(maze, from, lastDirection, k) + [] == CandidatesUpTo(maze, from, lastDirection, k);
  }

  /** The valid moves are exactly the open orthogonal neighbours other than
      the way back, at most four of them, in the order up, down, left, right. */
  lemma ValidMovesAreOpenNeighbours(maze: Grid, from: Pos, lastDirection: (int, int))
    ensures |ValidMoves(maze, from, lastDirection)| <= 4
    ensures forall p :: p in ValidMoves(maze, from, lastDirection) <==>
              && Adjacent(from, p) && IsOpenCell(maze, p.0, p.1)
              && Delta(from, p) != (-lastDirection.0, -lastDirection.1)
    ensures InScanOrder(from, ValidMoves(maze, from, lastDirection))
  {
    CandidatesUpToFacts(maze, from, lastDirection, 4);
    CandidatesInScanOrder(maze, from, lastDirection, 4);
    forall p ensures Adjacent(from, p) <==> DirIndex(Delta(from, p)) < 4 {
      AdjacentIffUnitStep(from, p);
    }
  }

  /** With the last direction (0, 0) nothing is excluded: every open
      orthogonal neighbour is a valid move. */
  lemma UTurnAvoidanceIsInert(maze: Grid, from: Pos)
    ensures forall p :: p in ValidMoves(maze, from, (0, 0)) <==> Adjacent(from, p) && IsOpenCell(maze, p.0, p.1)
  {
    ValidMovesAreOpenNeighbours(maze, from, (0, 0));
  }

  /** On the template the ghosts spawned inside the house have no valid move
      at all, whatever their last direction: every neighbour of those cells is
      a wall, house or door cell, none of which holds 0. */
  lemma HousedSpawnsHaveNoMoves(lastDirection: (int, int))
    ensures forall k :: 0 <= k < 3 ==> ValidMoves(OriginalPacmanMaze, GhostSpawn[k], lastDirection) == []
  {
    forall k | 0 <= k < 3
      ensures ValidMoves(OriginalPacmanMaze, GhostSpawn[k], lastDirection) == []
    {
      BoxedInHasNoMoves(OriginalPacmanMaze, GhostSpawn[k], lastDirection);
    }
  }

  lemma BoxedInHasNoMoves(maze: Grid, from: Pos, lastDirection: (int, int))
    requires maze == OriginalPacmanMaze && from.0 == 10 && 8 <= from.1 <= 10
    ensures ValidMoves(maze, from, lastDirection) == []
  {
    HouseSurroundings();
    OpenNeighboursDecideMoves(maze, from, lastDirection, false, false, false, false);
  }

  /** The fourth spawn, on the wall east of the house, has one way out. */
  lemma LastSpawnStepsEast()
    ensures ValidMoves(OriginalPacmanMaze, GhostSpawn[3], (0, 0)) == [(10, 12)]
  {
    HouseSurroundings();
    OpenNeighboursDecideMoves(OriginalPacmanMaze, (10, 11), (0, 0), false, false, false, true);
  }

  /** Around the ghost house only (10, 12) holds 0. */
  lemma HouseSurroundings()
    ensures forall c :: 8 <= c <= 11 ==> !IsOpenCell(OriginalPacmanMaze, 9, c) && !IsOpenCell(OriginalPacmanMaze, 11, c)
    ensures forall c :: 7 <= c <= 11 ==> !IsOpenCell(OriginalPacmanMaze, 10, c)
    ensures IsOpenCell(OriginalPacmanMaze, 10, 12)
  {
    var m := OriginalPacmanMaze;
    assert m[9][8] == 3 && m[9][9] == 3 && m[9][10] == 3 && m[9][11] == 1;
    assert m[10][7] == 1 && m[10][8] == 2 && m[10][9] == 2 && m[10][10] == 2 && m[10][11] == 1 && m[10][12] == 0;
    assert m[11][8] == 1 && m[11][9] == 1 && m[11][10] == 1 && m[11][11] == 1;
  }

  /** The valid moves from a cell whose four neighbours are known to be open
      or not, the last direction being (0, 0) or every neighbour closed. */
  lemma OpenNeighboursDecideMoves(maze: Grid, from: Pos, lastDirection: (int, int), up: bool, down: bool, left: bool, right: bool)
    requires IsOpenCell(maze, from.0 - 1, from.1) == up && IsOpenCell(maze, from.0 + 1, from.1) == down
    requires IsOpenCell(maze, from.0, from.1 - 1) == left && IsOpenCell(maze, from.0, from.1 + 1) == right
    requires lastDirection == (0, 0) || !(up || down || left || right)
    ensures ValidMoves(maze, from, lastDirection) ==
              (if up then [(from.0 - 1, from.1)] else []) + (if down then [(from.0 + 1, from.1)] else [])
              + (if left then [(from.0, from.1 - 1)] else []) + (if right then [(from.0, from.1 + 1)] else [])
  {
    ValidMovesUnrolled(maze, from, lastDirection);
  }

  /** The four scan steps written out. */
  lemma ValidMovesUnrolled(maze: Grid, from: Pos, lastDirection: (int, int))
    ensures ValidMoves(maze, from, lastDirection) ==
      var up, down, left, right := Add(from, (-1, 0)), Add(from, (1, 0)), Add(from, (0, -1)), Add(from, (0, 1));
      (if GhostMay(maze, from, lastDirection, up) then [up] else [])
      + (if GhostMay(maze, from, lastDirection, down) then [down] else [])
      + (if GhostMay(maze, from, lastDirection, left) then [left] else [])
      + (if GhostMay(maze, from, lastDirection, right) then [right] else [])
  {
    var up, down, left, right := Add(from, (-1, 0)), Add(from, (1, 0)), Add(from, (0, -1)), Add(from, (0, 1));
    var first := if GhostMay(maze, from, lastDirection, up) then [up] else [];
    assert CandidatesUpTo(maze, from, lastDirection, 1) == [] + first == first;
    assert CandidatesUpTo(maze, from, lastDirection, 2)
        == first + (if GhostMay(maze, from, lastDirection, down) then [down] else []);
    assert CandidatesUpTo(maze, from, lastDirection, 3)
        == CandidatesUpTo(maze, from, lastDirection, 2) + (if GhostMay(maze, from, lastDirection, left) then [left] else []);
  }

  // ---------------------------------------------------------- choosing a step

  /** Running minimum of the Manhattan distance in scan order with a strict
      comparison, as in _move_towards_target. */
  function NearestFirst(cands: seq<Pos>, target: Pos): Option<Pos>
    decreases |cands|
  {
    if cands == [] then None
    else
      var best := NearestFirst(cands[..|cands| - 1], target);
      var c := cands[|cands| - 1];
      if best.None? || Manhattan(c, target) < Manhattan(best.value, target) then Some(c) else best
  }

  /** cands[k] is nearest to the target and every earlier candidate is
      strictly farther. */
  predicate IsFirstNearest(cands: seq<Pos>, k: int, target: Pos) {
    && 0 <= k < |cands|
    && (forall j :: 0 <= j < |cands| ==> Manhattan(cands[k], target) <= Manhattan(cands[j], target))
    && (forall j :: 0 <= j < k ==> Manhattan(cands[k], target) < Manhattan(cands[j], target))
  }

  lemma {:induction false} NearestFirstIsFirstMinimum(cands: seq<Pos>, target: Pos)
    ensures NearestFirst(cands, target).None? <==> cands == []
    ensures cands != [] ==> exists k :: IsFirstNearest(cands, k, target) && NearestFirst(cands, target) == Some(cands[k])
    decreases |cands|
  {
    if cands != [] {
      var s := cands[..|cands| - 1];
      var c := cands[|cands| - 1];
      NearestFirstIsFirstMinimum(s, target);
      if s == [] {
        assert IsFirstNearest(cands, 0, target);
      } else {
        var k :| IsFirstNearest(s, k, target) && NearestFirst(s, target) == Some(s[k]);
        assert cands == s + [c];
        FirstNearestExtends(s, c, k, target);
      }
    }
  }

  /** Appending a candidate: it is the new first nearest when strictly
      nearer, otherwise the old one stays. */
  lemma FirstNearestExtends(s: seq<Pos>, c: Pos, k: int, target: Pos)
    requires IsFirstNearest(s, k, target)
    ensures Manhattan(c, target) < Manhattan(s[k], target) ==> IsFirstNearest(s + [c], |s|, target)
    ensures Manhattan(c, target) >= Manhattan(s[k], target) ==> IsFirstNearest(s + [c], k, target)
  {
    assert forall j :: 0 <= j < |s| ==> (s + [c])[j] == s[j];
  }

  /** One candidate more: it replaces the best so far only when strictly
      nearer. */
  lemma NearestFirstAppend(s: seq<Pos>, c: Pos, target: Pos)
    ensures NearestFirst(s + [c], target) ==
            var best := NearestFirst(s, target);
            if best.None? || Manhattan(c, target) < Manhattan(best.value, target) then Some(c) else best
  {
    assert (s + [c])[..|s|] == s;
  }

  /** One step of the scan towards a target: the k-th neighbour becomes the
      best so far exactly when it passes the filter and is strictly nearer. */
  lemma NearestFirstStep(maze: Grid, from: Pos, lastDirection: (int, int), k: int, target: Pos)
    requires 0 <= k < 4
    ensures var p := Add(from, Directions[k]);
            var best := NearestFirst(CandidatesUpTo(maze, from, lastDirection, k), target);
            NearestFirst(CandidatesUpTo(maze, from, lastDirection, k + 1), target) ==
              if GhostMay(maze, from, lastDirection, p) && (best.None? || Manhattan(p, target) < Manhattan(best.value, target))
              then Some(p) else best
  {
    CandidatesStep(maze, from, lastDirection, k);
    NearestFirstAppend(CandidatesUpTo(maze, from, lastDirection, k), Add(from, Directions[k]), target);
  }

  /** The flee score of a candidate: its step (dr, dc) dotted with the vector
      (dx, dy) pointing from Pac-Man to the ghost. The code divides (dx, dy)
      by a positive length first, which scales every score alike and so
      leaves the best candidate unchanged. */
  function Alignment(from: Pos, c: Pos, away: (int, int)): int {
    var step := Delta(from, c);
    step.0 * away.0 + step.1 * away.1
  }

  /** Running maximum of the flee score in scan order with a strict
      comparison, as in the flee loops of Inky and Clyde. */
  function FarthestAlong(cands: seq<Pos>, from: Pos, away: (int, int)): Option<Pos>
    decreases |cands|
  {
    if cands == [] then None
    else
      var best := FarthestAlong(cands[..|cands| - 1], from, away);
      var c := cands[|cands| - 1];
      if best.None? || Alignment(from, c, away) > Alignment(from, best.value, away) then Some(c) else best
  }

  predicate IsFirstFarthest(cands: seq<Pos>, k: int, from: Pos, away: (int, int)) {
    && 0 <= k < |cands|
    && (forall j :: 0 <= j < |cands| ==> Alignment(from, cands[k], away) >= Alignment(from, cands[j], away))
    && (forall j :: 0 <= j < k ==> Alignment(from, cands[k], away) > Alignment(from, cands[j], away))
  }

  lemma {:induction false} FarthestAlongIsFirstMaximum(cands: seq<Pos>, from: Pos, away: (int, int))
    ensures FarthestAlong(cands, from, away).None? <==> cands == []
    ensures cands != [] ==> exists k :: IsFirstFarthest(cands, k, from, away) && FarthestAlong(cands, from, away) == Some(cands[k])
    decreases |cands|
  {
    if cands != [] {
      var s := cands[..|cands| - 1];
      var c := cands[|cands| - 1];
      FarthestAlongIsFirstMaximum(s, from, away);
      if s == [] {
        assert IsFirstFarthest(cands, 0, from, away);
      } else {
        var k :| IsFirstFarthest(s, k, from, away) && FarthestAlong(s, from, away) == Some(s[k]);
        assert cands == s + [c];
        FirstFarthestExtends(s, c, k, from, away);
      }
    }
  }

  /** Appending a candidate: it is the new first best aligned when strictly
      better, otherwise the old one stays. */
  lemma FirstFarthestExtends(s: seq<Pos>, c: Pos, k: int, from: Pos, away: (int, int))
    requires IsFirstFarthest(s, k, from, away)
    ensures Alignment(from, c, away) > Alignment(from, s[k], away) ==> IsFirstFarthest(s + [c], |s|, from, away)
    ensures Alignment(from, c, away) <= Alignment(from, s[k], away) ==> IsFirstFarthest(s + [c], k, from, away)
  {
    assert forall j :: 0 <= j < |s| ==> (s + [c])[j] == s[j];
  }

  /** One candidate more: it replaces the best so far only when strictly
      better aligned. */
  lemma FarthestAlongAppend(s: seq<Pos>, c: Pos, from: Pos, away: (int, int))
    ensures FarthestAlong(s + [c], from, away) ==
            var best := FarthestAlong(s, from, away);
            if best.None? || Alignment(from, c, away) > Alignment(from, best.value, away) then Some(c) else best
  {
    assert (s + [c])[..|s|] == s;
  }

  /** One step of the flee scan: the k-th neighbour becomes the best so far
      exactly when it passes the filter and is strictly better aligned. */
  lemma FarthestAlongStep(maze: Grid, from: Pos, lastDirection: (int, int), k: int, away: (int, int))
    requires 0 <= k < 4
    ensures var p := Add(from, Directions[k]);
            var best := FarthestAlong(CandidatesUpTo(maze, from, lastDirection, k), from, away);
            FarthestAlong(CandidatesUpTo(maze, from, lastDirection, k + 1), from, away) ==
              if GhostMay(maze, from, lastDirection, p) && (best.None? || Alignment(from, p, away) > Alignment(from, best.value, away))
              then Some(p) else best
  {
    CandidatesStep(maze, from, lastDirection, k);
    FarthestAlongAppend(CandidatesUpTo(maze, from, lastDirection, k), Add(from, Directions[k]), from, away);
  }

  /** max(0, min(hi, x)), the clamp written in Pinky's move. */
  function Clamp(x: int, hi: int): (y: int)
    ensures hi >= 0 ==> 0 <= y <= hi
    ensures 0 <= x <= hi ==> y == x
    ensures hi >= 0 && x > hi ==> y == hi
    ensures x < 0 ==> y == 0
  {
    if x < 0 then 0 else if x > hi then (if hi < 0 then 0 else hi) else x
  }

  /** Two cells ahead of Pac-Man along its facing (no offset for anything
      but the four names), clamped into the rows x cols box. */
  function PinkyTarget(pacman: Pos, facing: Option<Direction>, rows: int, cols: int): (t: Pos)
    ensures rows > 0 && cols > 0 ==> 0 <= t.0 < rows && 0 <= t.1 < cols
  {
    var d := Offset(facing);
    var ahead := (pacman.0 + PinkyLookAhead * d.0, pacman.1 + PinkyLookAhead * d.1);
    (Clamp(ahead.0, rows - 1), Clamp(ahead.1, cols - 1))
  }

  /** The target is the look-ahead cell whenever that cell is on the board,
      and Pac-Man's own cell for an unknown facing. */
  lemma PinkyAimsAhead(pacman: Pos, facing: Option<Direction>, rows: int, cols: int)
    ensures var ahead := Add(pacman, (PinkyLookAhead * Offset(facing).0, PinkyLookAhead * Offset(facing).1));
            0 <= ahead.0 < rows && 0 <= ahead.1 < cols ==> PinkyTarget(pacman, facing, rows, cols) == ahead
    ensures Offset(facing) == (0, 0) && 0 <= pacman.0 < rows && 0 <= pacman.1 < cols ==>
              PinkyTarget(pacman, facing, rows, cols) == pacman
  {
  }

  function SquaredDistance(a: Pos, b: Pos): int {
    (a.0 - b.0) * (a.0 - b.0) + (a.1 - b.1) * (a.1 - b.1)
  }

  /** How the next step is chosen: uniformly among the valid moves, or a
      definite answer (possibly "no move"). */
  datatype Plan = Wander | Head(step: Option<Pos>)

  /** The decision rules of the four move methods. */
  function PlanFor(kind: GhostKind, maze: Grid, g: GhostView, pacmanPosition: Option<Pos>, pacmanDirection: Option<Direction>): Plan {
    var cands := ValidMoves(maze, g.position, g.lastDirection);
    if pacmanPosition.None? then Wander
    else if kind == Pinky && (pacmanDirection.None? || pacmanDirection == Some(Unrecognised(""))) then Wander
    else if g.isVulnerable then Wander
    else
      var pac := pacmanPosition.value;
      match kind
      case Blinky => Head(NearestFirst(cands, pac))
      case Pinky => Head(NearestFirst(cands, PinkyTarget(pac, pacmanDirection, |maze|, |maze[0]|)))
      case Inky =>
        if SquaredDistance(g.position, pac) < InkyFleeRadiusSquared then Head(FarthestAlong(cands, g.position, Delta(pac, g.position)))
        else Wander
      case Clyde =>
        if SquaredDistance(g.position, pac) < ClydeFleeRadiusSquared then Head(FarthestAlong(cands, g.position, Delta(pac, g.position)))
        else Head(NearestFirst(cands, pac))
  }

  /** The steps a plan allows; a random choice is some valid move, and none
      only when there is none. */
  predicate PlanAllows(plan: Plan, cands: seq<Pos>, next: Option<Pos>) {
    match plan
    case Wander => (next.None? <==> cands == []) && (next.Some? ==> next.value in cands)
    case Head(s) => next == s
  }

  /** Without a Pac-Man position, and whenever the ghost is vulnerable, the
      ghost wanders; otherwise Blinky chases Pac-Man, Pinky heads for the cell
      ahead of it (and wanders when no direction is known), and Inky and
      Clyde flee inside their radius, beyond which Inky wanders and Clyde
      chases. */
  lemma {:induction false} PlanRules(kind: GhostKind, maze: Grid, g: GhostView, pacmanPosition: Option<Pos>, pacmanDirection: Option<Direction>)
    ensures pacmanPosition.None? || g.isVulnerable ==> PlanFor(kind, maze, g, pacmanPosition, pacmanDirection) == Wander
    ensures var cands := ValidMoves(maze, g.position, g.lastDirection);
            pacmanPosition.Some? && !g.isVulnerable ==>
              var pac := pacmanPosition.value;
              var flee := Head(FarthestAlong(cands, g.position, Delta(pac, g.position)));
              && (kind == Blinky ==> PlanFor(kind, maze, g, pacmanPosition, pacmanDirection) == Head(NearestFirst(cands, pac)))
              && (kind == Pinky ==> PlanFor(kind, maze, g, pacmanPosition, pacmanDirection)
                                    == if pacmanDirection.None? || pacmanDirection == Some(Unrecognised("")) then Wander
                                       else Head(NearestFirst(cands, PinkyTarget(pac, pacmanDirection, |maze|, |maze[0]|))))
              && (kind == Inky ==> PlanFor(kind, maze, g, pacmanPosition, pacmanDirection)
                                   == if SquaredDistance(g.position, pac) < 25 then flee else Wander)
              && (kind == Clyde ==> PlanFor(kind, maze, g, pacmanPosition, pacmanDirection)
                                    == if SquaredDistance(g.position, pac) < 64 then flee else Head(NearestFirst(cands, pac)))
  {
  }

  /** Whatever the plan, a chosen step is one of the valid moves. */
  lemma {:induction false} PlannedStepIsValidMove(kind: GhostKind, maze: Grid, g: GhostView, pacmanPosition: Option<Pos>, pacmanDirection: Option<Direction>, next: Option<Pos>)
    requires PlanAllows(PlanFor(kind, maze, g, pacmanPosition, pacmanDirection), ValidMoves(maze, g.position, g.lastDirection), next)
    ensures next.Some? ==> next.value in ValidMoves(maze, g.position, g.lastDirection)
  {
    var cands := ValidMoves(maze, g.position, g.lastDirection);
    match PlanFor(kind, maze, g, pacmanPosition, pacmanDirection)
    case Wander =>
    case Head(s) =>
      if next.Some? {
        var pac := pacmanPosition.value;
        NearestFirstIsCandidate(cands, pac);
        NearestFirstIsCandidate(cands, PinkyTarget(pac, pacmanDirection, |maze|, |maze[0]|));
        FarthestAlongIsCandidate(cands, g.position, Delta(pac, g.position));
      }
  }

  lemma NearestFirstIsCandidate(cands: seq<Pos>, target: Pos)
    ensures NearestFirst(cands, target).Some? ==> NearestFirst(cands, target).value in cands
  {
    NearestFirstIsFirstMinimum(cands, target);
  }

  lemma FarthestAlongIsCandidate(cands: seq<Pos>, from: Pos, away: (int, int))
    ensures FarthestAlong(cands, from, away).Some? ==> FarthestAlong(cands, from, away).value in cands
  {
    FarthestAlongIsFirstMaximum(cands, from, away);
  }

  // ---------------------------------------------------------- vulnerability

  /** update_vulnerability: count both timers down while vulnerable and leave
      the vulnerable state, with both timers zero, once the timer is used up. */
  function Decay(g: GhostView): GhostView {
    if !g.isVulnerable then g
    else if g.vulnerableTimer - 1 <= 0 then g.(isVulnerable := false, vulnerableTimer := 0, frightenedTimer := 0)
    else g.(vulnerableTimer := g.vulnerableTimer - 1, frightenedTimer := g.frightenedTimer - 1)
  }

  /** The vulnerability flags cleared, as on expiry of a power pellet or on
      being eaten. */
  function Calmed(g: GhostView): GhostView {
    g.(isVulnerable := false, vulnerableTimer := 0, frightenedTimer := 0)
  }

  /** A ghost that is not vulnerable and has clear timers. */
  predicate IsCalm(g: GhostView) {
    !g.isVulnerable && g.vulnerableTimer == 0 && g.frightenedTimer == 0
  }

  function DecayTimes(g: GhostView, n: nat): GhostView
    decreases n
  {
    if n == 0 then g else DecayTimes(Decay(g), n - 1)
  }

  /** Decay touches only the vulnerability, keeps a calm ghost calm, and a
      vulnerable ghost with timer t >= 1 is calm after exactly t decays and
      still vulnerable after fewer. */
  lemma {:induction false} VulnerabilityRunsOut(g: GhostView, n: nat)
    requires g.isVulnerable && g.vulnerableTimer >= 1
    ensures n >= g.vulnerableTimer ==> DecayTimes(g, n) == Calmed(g)
    ensures n < g.vulnerableTimer ==> DecayTimes(g, n).isVulnerable
                                      && DecayTimes(g, n).vulnerableTimer == g.vulnerableTimer - n
    decreases n
  {
    if n > 0 {
      var h := Decay(g);
      if g.vulnerableTimer == 1 {
        assert h == Calmed(g);
        CalmIsStable(h, n - 1);
      } else {
        VulnerabilityRunsOut(h, n - 1);
        assert Calmed(h) == Calmed(g);
      }
    }
  }

  lemma {:induction false} CalmIsStable(g: GhostView, n: nat)
    requires !g.isVulnerable
    ensures DecayTimes(g, n) == g
    decreases n
  {
    if n > 0 {
      CalmIsStable(Decay(g), n - 1);
    }
  }

  // ----------------------------------------------------------- one move call

  function Relocate(g: GhostView, next: Option<Pos>): GhostView {
    if next.Some? then g.(position := next.value, lastDirection := (0, 0)) else g
  }

  /** The state change of one call of move: below the cadence only the
      counter rises; on the 20th call the counter resets and the ghost takes a
      step its plan allows; in both cases the vulnerability decays last. */
  ghost predicate GhostStep(kind: GhostKind, maze: Grid, pacmanPosition: Option<Pos>, pacmanDirection: Option<Direction>,
                            before: GhostView, after: GhostView)
  {
    if before.moveCounter + 1 < MoveEvery then
      after == Decay(before.(moveCounter := before.moveCounter + 1))
    else
      exists next: Option<Pos> ::
        && PlanAllows(PlanFor(kind, maze, before, pacmanPosition, pacmanDirection),
                      ValidMoves(maze, before.position, before.lastDirection), next)
        && after == Decay(Relocate(before.(moveCounter := 0), next))
  }

  /** The cadence: the counter stays in [0, 20), the position changes only on
      a call where the counter reached 20 (and it is then 0), a changed
      position is a valid move (an open orthogonal neighbour), and the last
      direction is then (0, 0), so it stays (0, 0) for good. */
  lemma {:induction false} GhostStepFacts(kind: GhostKind, maze: Grid, pacmanPosition: Option<Pos>, pacmanDirection: Option<Direction>,
                                          before: GhostView, after: GhostView)
    requires 0 <= before.moveCounter < MoveEvery
    requires GhostStep(kind, maze, pacmanPosition, pacmanDirection, before, after)
    ensures 0 <= after.moveCounter < MoveEvery
    ensures after.moveCounter == if before.moveCounter + 1 < MoveEvery then before.moveCounter + 1 else 0
    ensures after.position != before.position ==>
              && before.moveCounter == MoveEvery - 1
              && after.position in ValidMoves(maze, before.position, before.lastDirection)
              && Adjacent(before.position, after.position) && IsOpenCell(maze, after.position.0, after.position.1)
              && after.lastDirection == (0, 0)
    ensures after.lastDirection == before.lastDirection || after.lastDirection == (0, 0)
    ensures IsCalm(before) ==> IsCalm(after)
  {
    if before.moveCounter + 1 >= MoveEvery {
      var next: Option<Pos> :|
        && PlanAllows(PlanFor(kind, maze, before, pacmanPosition, pacmanDirection),
                      ValidMoves(maze, before.position, before.lastDirection), next)
        && after == Decay(Relocate(before.(moveCounter := 0), next));
      PlannedStepIsValidMove(kind, maze, before, pacmanPosition, pacmanDirection, next);
      ValidMovesAreOpenNeighbours(maze, before.position, before.lastDirection);
    }
  }

  class Ghost {
    var position: Pos
    var moveCounter: int
    var lastDirection: (int, int)
    var isVulnerable: bool
    var vulnerableTimer: int
    var frightenedTimer: int
    const kind: GhostKind

    function View(): GhostView
      reads this
    {
      GhostView(position, moveCounter, lastDirection, isVulnerable, vulnerableTimer, frightenedTimer)
    }

    ghost predicate Valid()
      reads this
    {
      0 <= moveCounter < MoveEvery
    }

    constructor (initialPosition: Pos, kind: GhostKind)
      ensures Valid() && this.kind == kind
      ensures View() == GhostView(initialPosition, 0, (0, 0), false, 0, 0)
    {
      position := initialPosition;
      moveCounter := 0;
      lastDirection := (0, 0);
      isVulnerable := false;
      vulnerableTimer := 0;
      this.kind := kind;
      frightenedTimer := 0;
    }

    method UpdateVulnerability()
      modifies this`isVulnerable, this`vulnerableTimer, this`frightenedTimer
      ensures View() == Decay(old(View()))
    {
      if isVulnerable {
        vulnerableTimer := vulnerableTimer - 1;
        frightenedTimer := frightenedTimer - 1;
        if vulnerableTimer <= 0 {
          isVulnerable := false;
          vulnerableTimer := 0;
          frightenedTimer := 0;
        }
      }
    }

    method GetValidMoves(maze: Grid) returns (validMoves: seq<Pos>)
      ensures validMoves == ValidMoves(maze, position, lastDirection)
    {
      var (currentRow, currentCol) := position;
      validMoves := [];
      for k := 0 to 4
        invariant validMoves == CandidatesUpTo(maze, position, lastDirection, k)
      {
        var (dr, dc) := Directions[k];
        var newRow, newCol := currentRow + dr, currentCol + dc;
        if 0 <= newRow < |maze| && 0 <= newCol < |maze[0]| {
          if maze[newRow][newCol] == 0 {
            if (dr, dc) != (-lastDirection.0, -lastDirection.1) {
              validMoves := validMoves + [(newRow, newCol)];
            }
          }
        }
      }
    }

    /** random.choice over the list, or no move for an empty list. */
    method ChooseRandomMove(validMoves: seq<Pos>) returns (next: Option<Pos>)
      ensures next.None? <==> validMoves == []
      ensures next.Some? ==> next.value in validMoves
    {
      if validMoves != [] {
        assert validMoves[0] in validMoves;
        var p :| p in validMoves;
        next := Some(p);
      } else {
        next := None;
      }
    }

    /** The scan of _move_towards_target. Its body, one direction of the
        scan, is TowardsConsider. */
    method MoveTowardsTarget(maze: Grid, target: Pos) returns (bestMove: Option<Pos>)
      ensures bestMove == NearestFirst(ValidMoves(maze, position, lastDirection), target)
    {
      bestMove := None;
      var bestDistance := 0;  // stands for infinity while bestMove is None
      for k := 0 to 4
        invariant bestMove == NearestFirst(CandidatesUpTo(maze, position, lastDirection, k), target)
        invariant bestMove.Some? ==> bestDistance == Manhattan(bestMove.value, target)
      {
        NearestFirstStep(maze, position, lastDirection, k, target);
        bestMove, bestDistance := TowardsConsider(maze, k, target, bestMove, bestDistance);
      }
    }

    /** The k-th direction of the scan towards a target: the neighbour
        replaces the best so far when it passes the filter and is strictly
        nearer. */
    method TowardsConsider(maze: Grid, k: int, target: Pos, bestMove: Option<Pos>, bestDistance: int)
      returns (bestMove': Option<Pos>, bestDistance': int)
      requires 0 <= k < 4
      requires bestMove.Some? ==> bestDistance == Manhattan(bestMove.value, target)
      ensures var p := Add(position, Directions[k]);
              bestMove' == if GhostMay(maze, position, lastDirection, p) && (bestMove.None? || Manhattan(p, target) < Manhattan(bestMove.value, target))
                           then Some(p) else bestMove
      ensures bestMove'.Some? ==> bestDistance' == Manhattan(bestMove'.value, target)
    {
      var (currentRow, currentCol) := position;
      var (dr, dc) := Directions[k];
      var newRow, newCol := currentRow + dr, currentCol + dc;
      bestMove', bestDistance' := bestMove, bestDistance;
      if 0 <= newRow < |maze| && 0 <= newCol < |maze[0]| {
        if maze[newRow][newCol] == 0 {
          if (dr, dc) != (-lastDirection.0, -lastDirection.1) {
            var dist := Abs(newRow - target.0) + Abs(newCol - target.1);
            if bestMove.None? || dist < bestDistance {
              bestDistance' := dist;
              bestMove' := Some((newRow, newCol));
            }
          }
        }
      }
    }

    /** The flee loop Inky and Clyde share. Its body, one direction of the
        scan, is FleeConsider. */
    method FleeFrom(maze: Grid, pacmanPosition: Pos) returns (bestMove: Option<Pos>)
      ensures bestMove == FarthestAlong(ValidMoves(maze, position, lastDirection), position, Delta(pacmanPosition, position))
    {
      var away := (position.0 - pacmanPosition.0, position.1 - pacmanPosition.1);
      bestMove := None;
      var bestDotProduct := 0;  // stands for minus infinity while bestMove is None
      for k := 0 to 4
        invariant bestMove == FarthestAlong(CandidatesUpTo(maze, position, lastDirection, k), position, away)
        invariant bestMove.Some? ==> bestDotProduct == Alignment(position, bestMove.value, away)
      {
        FarthestAlongStep(maze, position, lastDirection, k, away);
        bestMove, bestDotProduct := FleeConsider(maze, k, away, bestMove, bestDotProduct);
      }
    }

    /** The k-th direction of the flee scan: the neighbour replaces the best
        so far when it passes the filter and its dot product is strictly
        larger. */
    method FleeConsider(maze: Grid, k: int, away: (int, int), bestMove: Option<Pos>, bestDotProduct: int)
      returns (bestMove': Option<Pos>, bestDotProduct': int)
      requires 0 <= k < 4
      requires bestMove.Some? ==> bestDotProduct == Alignment(position, bestMove.value, away)
      ensures var p := Add(position, Directions[k]);
              bestMove' == if GhostMay(maze, position, lastDirection, p) && (bestMove.None? || Alignment(position, p, away) > Alignment(position, bestMove.value, away))
                           then Some(p) else bestMove
      ensures bestMove'.Some? ==> bestDotProduct' == Alignment(position, bestMove'.value, away)
    {
      var (dx, dy) := away;
      var (currentRow, currentCol) := position;
      var (dr, dc) := Directions[k];
      var newRow, newCol := currentRow + dr, currentCol + dc;
      bestMove', bestDotProduct' := bestMove, bestDotProduct;
      if 0 <= newRow < |maze| && 0 <= newCol < |maze[0]| && maze[newRow][newCol] == 0 {
        if (dr, dc) != (-lastDirection.0, -lastDirection.1) {
          var dotProduct := dr * dx + dc * dy;
          if bestMove.None? || dotProduct > bestDotProduct {
            bestDotProduct' := dotProduct;
            bestMove' := Some((newRow, newCol));
          }
        }
      }
    }

    /** The choice of the next cell in move, made once the counter has
        reached MoveEvery: a random valid move without Pac-Man's position,
        for Pinky without a facing, and for a vulnerable ghost; otherwise
        each kind's own rule. */
    method ChooseNextPosition(maze: Grid, pacmanPosition: Option<Pos>, pacmanDirection: Option<Direction>)
      returns (nextPos: Option<Pos>)
      ensures PlanAllows(PlanFor(kind, maze, View(), pacmanPosition, pacmanDirection),
                         ValidMoves(maze, position, lastDirection), nextPos)
    {
      if pacmanPosition.None? || (kind == Pinky && (pacmanDirection.None? || pacmanDirection == Some(Unrecognised("")))) {
        var validMoves := GetValidMoves(maze);
        nextPos := ChooseRandomMove(validMoves);
      } else if isVulnerable {
        var validMoves := GetValidMoves(maze);
        nextPos := ChooseRandomMove(validMoves);
      } else {
        var pac := pacmanPosition.value;
        match kind {
          case Blinky =>
            nextPos := MoveTowardsTarget(maze, pac);
          case Pinky =>
            var target := PinkyTarget(pac, pacmanDirection, |maze|, |maze[0]|);
            nextPos := MoveTowardsTarget(maze, target);
          case Inky =>
            if SquaredDistance(position, pac) < InkyFleeRadiusSquared {
              nextPos := FleeFrom(maze, pac);
            } else {
              var validMoves := GetValidMoves(maze);
              nextPos := ChooseRandomMove(validMoves);
            }
          case Clyde =>
            if SquaredDistance(position, pac) < ClydeFleeRadiusSquared {
              nextPos := FleeFrom(maze, pac);
            } else {
              nextPos := MoveTowardsTarget(maze, pac);
            }
        }
      }
    }

    method Move(maze: Grid, pacmanPosition: Option<Pos>, pacmanDirection: Option<Direction>)
      requires Valid()
      modifies this
      ensures Valid()
      ensures GhostStep(kind, maze, pacmanPosition, pacmanDirection, old(View()), View())
    {
      ghost var before := View();
      moveCounter := moveCounter + 1;
      if moveCounter < MoveEvery {
        UpdateVulnerability();
        return;
      }
      moveCounter := 0;

      var nextPos := ChooseNextPosition(maze, pacmanPosition, pacmanDirection);

      if nextPos.Some? {
        position := nextPos.value;
        // the code takes the difference after overwriting the position
        lastDirection := (nextPos.value.0 - position.0, nextPos.value.1 - position.1);
      }
      assert View() == Relocate(before.(moveCounter := 0), nextPos);
      UpdateVulnerability();
    }
  }
}
