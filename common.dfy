/** Shared vocabulary of the simulation: optional values, grid coordinates
    and the four orthogonal unit steps in the order the game scans them. */
module Common {

  datatype Option<+T> = None | Some(value: T)

  /** A grid coordinate (row, column). */
  type Pos = (int, int)

  function Abs(x: int): int {
    if x < 0 then -x else x
  }

  /** Unit steps up, down, left and right, in the order every scan of the
      game visits them (world/board.py:244, entities/ghosts.py:34). */
  const Directions: seq<(int, int)> := [(-1, 0), (1, 0), (0, -1), (0, 1)]

  function Add(p: Pos, d: (int, int)): Pos {
    (p.0 + d.0, p.1 + d.1)
  }

  /** The step that leads from `a` to `b`. */
  function Delta(a: Pos, b: Pos): (int, int) {
    (b.0 - a.0, b.1 - a.1)
  }

  /** Position of a unit step in the scan order; 4 for anything else. */
  function DirIndex(d: (int, int)): (k: nat)
    ensures k < 4 ==> Directions[k] == d
    ensures k == 4 ==> d !in Directions
  {
    if d == (-1, 0) then 0
    else if d == (1, 0) then 1
    else if d == (0, -1) then 2
    else if d == (0, 1) then 3
    else 4
  }

  /** Orthogonal adjacency, defined independently of the direction table. */
  predicate Adjacent(a: Pos, b: Pos) {
    Abs(b.0 - a.0) + Abs(b.1 - a.1) == 1
  }

  lemma AdjacentIffUnitStep(a: Pos, b: Pos)
    ensures Adjacent(a, b) <==> DirIndex(Delta(a, b)) < 4
  {
  }

  function Manhattan(a: Pos, b: Pos): (d: nat)
    ensures d == 0 <==> a == b
  {
    Abs(a.0 - b.0) + Abs(a.1 - b.1)
  }
}
