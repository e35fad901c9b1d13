/** Pac-Man, the entity the player steers (entities/player.py): its grid
    position, facing, queued direction, score and lives, and the move that
    commits one step and eats what lies on the new cell. */
module Player {
  import opened Common
  import opened Board

  const FoodPoints := 10
  const PowerPelletPoints := 50

  /** A direction string as the game stores it. The four names the code
      recognises get their own constructors; every other string is kept
      verbatim, so no information is lost. */
  datatype Direction = Up | Down | Left | Right | Unrecognised(name: string)

  /** The direction names, in the scan order of Common.Directions. */
  const DirectionNames: seq<string> := ["UP", "DOWN", "LEFT", "RIGHT"]

  function FromName(s: string): Direction {
    if s == "UP" then Up
    else if s == "DOWN" then Down
    else if s == "LEFT" then Left
    else if s == "RIGHT" then Right
    else Unrecognised(s)
  }

  function Name(d: Direction): string {
    match d
    case Up => "UP"
    case Down => "DOWN"
    case Left => "LEFT"
    case Right => "RIGHT"
    case Unrecognised(s) => s
  }

  /** Reading a string as a direction loses nothing: it can be read back, so
      two directions are equal exactly when their strings are. */
  lemma {:induction false} FromNameIsInjective(s: string, t: string)
    ensures Name(FromName(s)) == s
    ensures FromName(s) == FromName(t) <==> s == t
  {
    assert Name(FromName(t)) == t;
  }

  /** Row/column offset of a direction. Any other value, including a missing
      direction or "PAUSE", is the zero offset. */
  function Offset(direction: Option<Direction>): (d: (int, int))
    ensures d == (0, 0) || d in Directions
  {
    match direction
    case Some(Up) => (-1, 0)
    case Some(Down) => (1, 0)
    case Some(Left) => (0, -1)
    case Some(Right) => (0, 1)
    case _ => (0, 0)
  }

  /** The direction names and the scan-order step table agree, and nothing
      but the four names moves at all. */
  lemma OffsetMatchesScanOrder(s: string)
    ensures forall k :: 0 <= k < 4 ==> Offset(Some(FromName(DirectionNames[k]))) == Directions[k]
    ensures Offset(Some(FromName(s))) != (0, 0) <==> s in DirectionNames
    ensures Offset(None) == (0, 0)
  {
  }

  /** What is left after stepping onto `cell`, and the points earned. */
  datatype Pickup = Pickup(food: set<Pos>, pellets: set<Pos>, points: int)

  /** Eating on arrival at `cell`: food is checked first, a power pellet only
      when there is no food (entities/player.py:73-83, repeated at 105-115). */
  function EatAt(cell: Pos, food: set<Pos>, pellets: set<Pos>): (r: Pickup)
    ensures r.food <= food && r.pellets <= pellets
    ensures (food - r.food) + (pellets - r.pellets) <= {cell}
    ensures r.points != 0 <==> cell in food + pellets
  {
    if cell in food then Pickup(food - {cell}, pellets, FoodPoints)
    else if cell in pellets then Pickup(food, pellets - {cell}, PowerPelletPoints)
    else Pickup(food, pellets, 0)
  }

  /** Exactly one item is eaten when the cell holds any, and the points are
      the value of what was eaten. */
  lemma {:induction false} EatAtAccounting(cell: Pos, food: set<Pos>, pellets: set<Pos>)
    ensures var r := EatAt(cell, food, pellets);
            && |food - r.food| + |pellets - r.pellets| == (if cell in food + pellets then 1 else 0)
            && r.points == FoodPoints * |food - r.food| + PowerPelletPoints * |pellets - r.pellets|
  {
    if cell in food {
      assert food - (food - {cell}) == {cell};
    } else if cell in pellets {
      assert pellets - (pellets - {cell}) == {cell};
    }
  }

  /** The result of one call of move: whether a step was committed and
      Pac-Man's position, facing and score with both item sets afterwards. */
  datatype MoveOutcome = MoveOutcome(
    moved: bool, position: Pos, direction: Option<Direction>, score: int,
    food: set<Pos>, pellets: set<Pos>)

  function Commit(cell: Pos, direction: Option<Direction>, score: int, food: set<Pos>, pellets: set<Pos>): MoveOutcome {
    var eaten := EatAt(cell, food, pellets);
    MoveOutcome(true, cell, direction, score + eaten.points, eaten.food, eaten.pellets)
  }

  /** One call of move: the step along the current facing is tried first;
      the requested direction only when that fails and it differs. */
  function MoveOutcomeOf(
    maze: Grid, position: Pos, direction: Option<Direction>, requested: Option<Direction>,
    score: int, food: set<Pos>, pellets: set<Pos>): MoveOutcome
  {
    var primary := Add(position, Offset(direction));
    if IsOpenCell(maze, primary.0, primary.1) then
      Commit(primary, direction, score, food, pellets)
    else if requested != direction && IsOpenCell(maze, Add(position, Offset(requested)).0, Add(position, Offset(requested)).1) then
      Commit(Add(position, Offset(requested)), requested, score, food, pellets)
    else
      MoveOutcome(false, position, direction, score, food, pellets)
  }

  /** A committed step lands on an open cell one offset away along the new
      facing; the facing changes only to the requested direction, only when
      it differs and the current facing was blocked; a refused move changes
      nothing. The facing is always tried first, whatever was requested. */
  lemma {:induction false} MoveCommitsOnlyToOpenCells(
    maze: Grid, position: Pos, direction: Option<Direction>, requested: Option<Direction>,
    score: int, food: set<Pos>, pellets: set<Pos>)
    ensures var o := MoveOutcomeOf(maze, position, direction, requested, score, food, pellets);
            && (o.moved ==> IsOpenCell(maze, o.position.0, o.position.1)
                            && o.position == Add(position, Offset(o.direction)))
            && (o.direction != direction ==>
                  o.moved && o.direction == requested && requested != direction
                  && !IsOpenCell(maze, Add(position, Offset(direction)).0, Add(position, Offset(direction)).1))
            && (IsOpenCell(maze, Add(position, Offset(direction)).0, Add(position, Offset(direction)).1) ==>
                  o.moved && o.direction == direction)
            && (!o.moved ==> o == MoveOutcome(false, position, direction, score, food, pellets))
  {
  }

  /** Whatever happens, at most one item disappears, neither set grows, and
      the score rises by exactly the value of what was eaten. */
  lemma {:induction false} MoveEatsAtMostOneItem(
    maze: Grid, position: Pos, direction: Option<Direction>, requested: Option<Direction>,
    score: int, food: set<Pos>, pellets: set<Pos>)
    ensures var o := MoveOutcomeOf(maze, position, direction, requested, score, food, pellets);
            && o.food <= food && o.pellets <= pellets
            && (food - o.food) + (pellets - o.pellets) <= {o.position}
            && o.score - score == FoodPoints * |food - o.food| + PowerPelletPoints * |pellets - o.pellets|
            && o.score - score in {0, FoodPoints, PowerPelletPoints}
  {
    var primary := Add(position, Offset(direction));
    var alternative := Add(position, Offset(requested));
    if IsOpenCell(maze, primary.0, primary.1) {
      CommitAccounting(primary, direction, score, food, pellets);
    } else if requested != direction && IsOpenCell(maze, alternative.0, alternative.1) {
      CommitAccounting(alternative, requested, score, food, pellets);
    }
  }

  /** The accounting of one committed step. */
  lemma CommitAccounting(cell: Pos, direction: Option<Direction>, score: int, food: set<Pos>, pellets: set<Pos>)
    ensures var o := Commit(cell, direction, score, food, pellets);
            && o.position == cell && o.food <= food && o.pellets <= pellets
            && (food - o.food) + (pellets - o.pellets) <= {cell}
            && o.score - score == FoodPoints * |food - o.food| + PowerPelletPoints * |pellets - o.pellets|
            && o.score - score in {0, FoodPoints, PowerPelletPoints}
  {
    EatAtAccounting(cell, food, pellets);
  }

  /** The fields of a PacMan as one value. */
  datatype PacView = PacView(
    position: Pos, direction: Option<Direction>, nextDirection: Option<Direction>, score: int, lives: int)

  class PacMan {
    var position: Pos
    var lives: int
    var score: int
    var direction: Option<Direction>
    var nextDirection: Option<Direction>

    function View(): PacView
      reads this
    {
      PacView(position, direction, nextDirection, score, lives)
    }

    constructor (initialPosition: Pos, lives: int)
      ensures position == initialPosition && this.lives == lives && score == 0
      ensures direction == Some(Right) && nextDirection == None
    {
      position := initialPosition;
      this.lives := lives;
      score := 0;
      direction := Some(Right);
      nextDirection := None;
    }

    /** Stores the request, then steps along the current facing or, failing
        that, along the request. The item sets are the caller's; the sets
        left after eating are handed back. */
    method Move(direction: Option<Direction>, maze: Grid, foodPositions: set<Pos>, powerPelletPositions: set<Pos>)
      returns (moved: bool, food: set<Pos>, pellets: set<Pos>)
      modifies this
      ensures nextDirection == direction && lives == old(lives)
      ensures var o := MoveOutcomeOf(maze, old(position), old(this.direction), direction,
                                     old(score), foodPositions, powerPelletPositions);
              && moved == o.moved && position == o.position && this.direction == o.direction
              && score == o.score && food == o.food && pellets == o.pellets
    {
      ghost var o := MoveOutcomeOf(maze, position, this.direction, direction, score, foodPositions, powerPelletPositions);
      nextDirection := direction;
      food, pellets := foodPositions, powerPelletPositions;
      var (dr, dc) := Offset(this.direction);
      var newRow, newCol := position.0 + dr, position.1 + dc;
      if 0 <= newRow < |maze| && 0 <= newCol < |maze[0]| && maze[newRow][newCol] == 0 {
        assert o == Commit((newRow, newCol), this.direction, score, food, pellets);
        position := (newRow, newCol);
        var eaten := EatAt(position, food, pellets);
        food, pellets, score := eaten.food, eaten.pellets, score + eaten.points;
        moved := true;
      } else if nextDirection != this.direction {
        var (dr', dc') := Offset(nextDirection);
        newRow, newCol := position.0 + dr', position.1 + dc';
        if 0 <= newRow < |maze| && 0 <= newCol < |maze[0]| && maze[newRow][newCol] == 0 {
          assert o == Commit((newRow, newCol), nextDirection, score, food, pellets);
          this.direction := nextDirection;
          position := (newRow, newCol);
          var eaten := EatAt(position, food, pellets);
          food, pellets, score := eaten.food, eaten.pellets, score + eaten.points;
          moved := true;
        } else {
          assert o.position == position && !o.moved;
          moved := false;
        }
      } else {
        assert o.position == position && !o.moved;
        moved := false;
      }
    }

    /** Reports whether any life is left after losing one. */
    method LoseLife() returns (alive: bool)
      modifies this`lives
      ensures lives == old(lives) - 1
      ensures alive <==> lives > 0
    {
      lives := lives - 1;
      alive := lives > 0;
    }

    /** Respawn: position, facing RIGHT and no queued direction; score and
        lives are kept. */
    method ResetPosition(newPosition: Pos)
      modifies this`position, this`direction, this`nextDirection
      ensures position == newPosition
      ensures direction == Some(Right) && nextDirection == None
    {
      position := newPosition;
      direction := Some(Right);
      nextDirection := None;
    }
  }
}
