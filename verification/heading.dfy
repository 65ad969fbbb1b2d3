/** The creature's facing and the cell in front of it, shared by both environment versions. */
module Heading {
  import opened Grid

  const UP: int := 0
  const RIGHT: int := 1
  const DOWN: int := 2
  const LEFT: int := 3

  /** The cell one step ahead: up decreases the row, right increases the column, and so on;
      any orientation other than 0, 1, 2 is treated as "left". */
  function ForwardPos(p: Pos, orientation: int): Pos {
    if orientation == UP then Pos(p.row - 1, p.col)
    else if orientation == RIGHT then Pos(p.row, p.col + 1)
    else if orientation == DOWN then Pos(p.row + 1, p.col)
    else Pos(p.row, p.col - 1)
  }

  /** A quarter turn counter-clockwise, wrapped into 0..3 as Python's `% 4` does. */
  function TurnLeft(orientation: int): (o: int)
    ensures 0 <= o < 4
    ensures (o + 1) % 4 == orientation % 4
  {
    (orientation - 1) % 4
  }

  /** A quarter turn clockwise, wrapped into 0..3. */
  function TurnRight(orientation: int): (o: int)
    ensures 0 <= o < 4
    ensures (o + 3) % 4 == orientation % 4
  {
    (orientation + 1) % 4
  }

  /** Turning left undoes turning right and vice versa, for every orientation the creature can hold. */
  lemma TurnsInverse(orientation: int)
    requires 0 <= orientation < 4
    ensures TurnLeft(TurnRight(orientation)) == orientation
    ensures TurnRight(TurnLeft(orientation)) == orientation
  {
  }

  /** A forward move always lands on an orthogonal neighbour, and turning around and moving
      forward again comes straight back. */
  lemma ForwardIsOneStep(p: Pos, orientation: int)
    requires 0 <= orientation < 4
    ensures var q := ForwardPos(p, orientation);
      q != p && (q.row - p.row) * (q.row - p.row) + (q.col - p.col) * (q.col - p.col) == 1
    ensures ForwardPos(ForwardPos(p, orientation), TurnRight(TurnRight(orientation))) == p
  {
  }
}
