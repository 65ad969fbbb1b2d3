/** The orientation-relative sensor `get_sight`: for the front, left and right rays, a signed
    proximity to the first food (positive) or edge of the grid (negative) within range. */
module Sight {
  import opened Results
  import opened Grid
  import opened Heading
  import opened World

  /** A ray direction as a (row, column) step. */
  datatype Offset = Offset(dr: int, dc: int)

  /** The three readings, front first. */
  datatype Reading = Reading(front: real, left: real, right: real)

  /** Block codes of `get_sight_blocks`. */
  const CLEAR: int := 0
  const FOOD_SEEN: int := 1
  const WALL: int := 2

  /** The direction table of `get_sight_blocks`: front, left, right for each orientation;
      any orientation other than 0, 1, 2 is treated as "left". */
  function Rays(orientation: int): seq<Offset> {
    if orientation == UP then [Offset(-1, 0), Offset(0, -1), Offset(0, 1)]
    else if orientation == RIGHT then [Offset(0, 1), Offset(-1, 0), Offset(1, 0)]
    else if orientation == DOWN then [Offset(1, 0), Offset(0, 1), Offset(0, -1)]
    else [Offset(0, -1), Offset(1, 0), Offset(-1, 0)]
  }

  /** The cell `i` steps from `p` along `d`. */
  function Shift(p: Pos, d: Offset, i: int): Pos {
    Pos(p.row + d.dr * i, p.col + d.dc * i)
  }

  /** The front ray points where `forward_pos` moves; the left and right rays point where
      `forward_pos` would move after `turn_left` and `turn_right`. */
  lemma RaysFollowHeading(p: Pos, orientation: int)
    requires 0 <= orientation < 4
    ensures Shift(p, Rays(orientation)[0], 1) == ForwardPos(p, orientation)
    ensures Shift(p, Rays(orientation)[1], 1) == ForwardPos(p, TurnLeft(orientation))
    ensures Shift(p, Rays(orientation)[2], 1) == ForwardPos(p, TurnRight(orientation))
  {
  }

  /** The code of one cell: outside the grid is a wall, a food cell is food, anything else
      (empty or the creature itself) is clear. */
  function Block(e: Env, p: Pos): int {
    if !InBounds(e.size, p) then WALL
    else if InGrid(e.grid, p) && At(e.grid, p) == FOOD then FOOD_SEEN
    else CLEAR
  }

  /** The code of the cell at 0-based index `k` of the ray along `d`, that is `k + 1` steps out. */
  function RayBlock(e: Env, d: Offset, k: int): int {
    Block(e, Shift(e.player.pos, d, k + 1))
  }

  /** The codes of the cells 1..n steps along `d`; empty when `n < 1`. */
  function Blocks(e: Env, d: Offset, n: int): (codes: seq<int>)
    ensures |codes| == Clamp(n)
  {
    seq(Clamp(n), k => RayBlock(e, d, k))
  }

  predicate IsHit(code: int) {
    code == FOOD_SEEN || code == WALL
  }

  /** `(n - i) / n` for the cell at 0-based index `i` of the ray. */
  function Proximity(n: int, i: int): (p: real)
    requires n > 0
    ensures 0 <= i < n ==> 0.0 < p <= 1.0
  {
    var num := (n - i) as real;
    var den := n as real;
    assert 0 <= i < n ==> 0.0 < num <= den;
    num / den
  }

  /** The summary loop of `get_sight` from index `i` on: the first food or wall decides the
      reading, clear cells are skipped, and a ray with neither reads 0. */
  function Scan(codes: seq<int>, n: int, i: nat): (v: real)
    requires i <= |codes| <= Clamp(n)
    ensures (forall k :: i <= k < |codes| ==> !IsHit(codes[k])) ==> v == 0.0
    ensures forall k :: i <= k < |codes| && IsHit(codes[k]) && (forall m :: i <= m < k ==> !IsHit(codes[m])) ==>
              v == if codes[k] == FOOD_SEEN then Proximity(n, k) else -Proximity(n, k)
    ensures -1.0 <= v <= 1.0
    decreases |codes| - i
  {
    if i == |codes| then 0.0
    else if codes[i] == FOOD_SEEN then Proximity(n, i)
    else if codes[i] == WALL then -Proximity(n, i)
    else Scan(codes, n, i + 1)
  }

  /** `get_sight(n)`: the readings of the front, left and right rays, each in [-1, 1]. */
  function GetSight(e: Env, n: int): (s: Reading)
    ensures -1.0 <= s.front <= 1.0 && -1.0 <= s.left <= 1.0 && -1.0 <= s.right <= 1.0
    ensures n < 1 ==> s == Reading(0.0, 0.0, 0.0)
  {
    var rays := Rays(e.player.orientation);
    Reading(Scan(Blocks(e, rays[0], n), n, 0),
            Scan(Blocks(e, rays[1], n), n, 0),
            Scan(Blocks(e, rays[2], n), n, 0))
  }

  /** A ray reads `+(n - i) / n` when the first non-clear cell within range, at 0-based index
      `i`, holds food, `-(n - i) / n` when it lies off the grid, and 0 when every cell in range
      is clear. */
  lemma RayReading(e: Env, d: Offset, n: int)
    ensures var v := Scan(Blocks(e, d, n), n, 0);
      && ((forall k :: 0 <= k < n ==> RayBlock(e, d, k) == CLEAR) ==> v == 0.0)
      && (forall k :: (0 <= k < n && RayBlock(e, d, k) != CLEAR
                       && forall m :: 0 <= m < k ==> RayBlock(e, d, m) == CLEAR) ==>
            v == if RayBlock(e, d, k) == FOOD_SEEN then Proximity(n, k) else -Proximity(n, k))
  {
    var codes := Blocks(e, d, n);
    assert forall k :: 0 <= k < |codes| ==> (IsHit(codes[k]) <==> codes[k] != CLEAR);
  }

  /** A worked example: on a 9 by 9 grid, facing up from the centre with food
      two cells ahead and nothing else within four cells, `get_sight(4)` is (0.75, 0, 0). */
  lemma FoodTwoAhead(e: Env)
    requires Valid(e) && e.size == 9
    requires e.player.pos == Pos(4, 4) && e.player.orientation == UP
    requires e.grid[3][4] == EMPTY && e.grid[2][4] == FOOD
    requires forall c :: 0 <= c < 9 ==> e.grid[4][c] != FOOD
    ensures GetSight(e, 4) == Reading(0.75, 0.0, 0.0)
  {
    var rays := Rays(UP);
    var front := Blocks(e, rays[0], 4);
    assert front[0] == CLEAR && front[1] == FOOD_SEEN;
    var left := Blocks(e, rays[1], 4);
    assert forall k :: 0 <= k < 4 ==> left[k] == CLEAR;
    var right := Blocks(e, rays[2], 4);
    assert forall k :: 0 <= k < 4 ==> right[k] == CLEAR;
  }
}
