/** The energy-aware grid world of the backend: the creature record, environment construction,
    food placement and the four-action step function. */
module World {
  import opened Results
  import opened Grid
  import opened Heading

  const DEFAULT_SIZE: int := 9
  const DEFAULT_MAX_ENERGY: int := 5
  /** Energy granted by eating one food cell. */
  const FOOD_ENERGY: int := 5

  const NOOP: int := 0
  const MOVE: int := 1
  const TURN_LEFT: int := 2
  const TURN_RIGHT: int := 3

  /** The action codes `step` accepts. */
  predicate IsAction(action: int) {
    NOOP <= action <= TURN_RIGHT
  }

  function Max(a: int, b: int): int {
    if a < b then b else a
  }

  /** The creature's mutable state; the policy parameters it carries are kept apart from it. */
  datatype Creature = Creature(
    pos: Pos,
    orientation: int,
    age: nat,
    foodEaten: nat,
    visited: seq<Pos>,
    maxEnergy: int,
    energy: int)

  /** A freshly constructed creature, with the given energy ceiling. */
  function NewCreature(maxEnergy: int): Creature {
    Creature(Pos(0, 0), UP, 0, 0, [], maxEnergy, maxEnergy)
  }

  /** `reset` puts every episode field back to its constructed value and refills the energy. */
  function Reset(c: Creature): (c': Creature)
    ensures c' == NewCreature(c.maxEnergy)
  {
    c.(pos := Pos(0, 0), age := 0, orientation := UP, foodEaten := 0, visited := [], energy := c.maxEnergy)
  }

  datatype Env = Env(size: int, grid: Cells, player: Creature)

  /** The shape every environment has: a `size` by `size` grid with the creature inside it. */
  predicate WellFormed(e: Env) {
    e.size >= 1 && Square(e.grid, e.size) && InBounds(e.size, e.player.pos)
  }

  /** The invariant the environment keeps: cell codes 0..2, exactly one creature cell and it is
      the creature's position, orientation 0..3, non-negative energy, no repeated visit. */
  ghost predicate Valid(e: Env) {
    && WellFormed(e)
    && (forall p :: InGrid(e.grid, p) ==> EMPTY <= At(e.grid, p) <= FOOD)
    && (forall p :: InGrid(e.grid, p) ==> (At(e.grid, p) == CREATURE <==> p == e.player.pos))
    && 0 <= e.player.orientation < 4
    && e.player.energy >= 0
    && Distinct(e.player.visited)
  }

  /** The centre cell `(s // 2, s // 2)`. */
  function Center(s: int): Pos {
    Pos(s / 2, s / 2)
  }

  /** The grid a new environment starts with: empty except for the creature at the centre. */
  function StartGrid(s: int): Cells
    requires s >= 1
  {
    Put(Blank(s), Center(s), CREATURE)
  }

  /** `Environment(creature, s, seed, max_energy)`. A size below 1 leaves no centre cell to mark
      and raises IndexError. The creature's other fields are taken over unchanged. */
  function NewEnv(c: Creature, s: int, maxEnergy: int): (r: Result<Env>)
    ensures r.Err? <==> s < 1
    ensures r.Err? ==> r.fault == IndexOutOfRange
    ensures r.Ok? ==> r.value.size == s && Square(r.value.grid, s)
    ensures r.Ok? ==> r.value.player.pos == Center(s)
    ensures r.Ok? ==> forall p :: InGrid(r.value.grid, p) ==>
                        At(r.value.grid, p) == if p == Center(s) then CREATURE else EMPTY
    ensures r.Ok? ==> r.value.player.maxEnergy == maxEnergy && r.value.player.energy == maxEnergy
    ensures r.Ok? ==> r.value.player.(pos := c.pos, maxEnergy := c.maxEnergy, energy := c.energy) == c
    ensures r.Ok? && 0 <= c.orientation < 4 && Distinct(c.visited) && maxEnergy >= 0 ==> Valid(r.value)
  {
    if s < 1 then Err(IndexOutOfRange)
    else Ok(Env(s, StartGrid(s), c.(pos := Center(s), maxEnergy := maxEnergy, energy := maxEnergy)))
  }

  /** `ceil(size ** 2 / 9)`, the number of food cells placed. */
  function NumFood(size: int): (k: nat)
    ensures 9 * (k - 1) < size * size <= 9 * k
  {
    (size * size + 8) / 9
  }

  /** `chosen` is a sample of `k` distinct elements of `pool`. */
  predicate SampleOf(chosen: seq<Pos>, pool: seq<Pos>, k: int) {
    |chosen| == k && Distinct(chosen) && forall p :: p in chosen ==> p in pool
  }

  /** What `random.sample(empty_positions(), num_food)` promises: whenever the sample is
      possible, `chosen` is one. */
  predicate FoodSample(size: int, grid: Cells, chosen: seq<Pos>) {
    NumFood(size) <= |EmptyPositions(grid)| ==> SampleOf(chosen, EmptyPositions(grid), NumFood(size))
  }

  /** The grid half of `generate_food`, shared by both environment versions: the sampled empty
      cells become food and nothing else changes. With fewer empty cells than food to place,
      `random.sample` raises. */
  function PlaceFood(size: int, grid: Cells, chosen: seq<Pos>): (r: Result<Cells>)
    requires FoodSample(size, grid, chosen)
    ensures r.Err? <==> Count(grid, EMPTY) < NumFood(size)
    ensures r.Err? ==> r.fault == SampleTooLarge
    ensures r.Ok? ==> |r.value| == |grid| && forall q :: InGrid(r.value, q) <==> InGrid(grid, q)
    ensures r.Ok? ==> forall p :: InGrid(grid, p) && At(r.value, p) != At(grid, p) ==>
                        At(grid, p) == EMPTY && At(r.value, p) == FOOD
    ensures r.Ok? ==> Count(r.value, FOOD) == Count(grid, FOOD) + NumFood(size)
    ensures r.Ok? ==> Count(r.value, EMPTY) == Count(grid, EMPTY) - NumFood(size)
  {
    var empties := EmptyPositions(grid);
    if |empties| < NumFood(size) then Err(SampleTooLarge)
    else
      PutAllCounts(grid, chosen, EMPTY, FOOD);
      Ok(PutAll(grid, chosen, FOOD))
  }

  /** `generate_food` on the backend environment. */
  function GenerateFood(e: Env, chosen: seq<Pos>): (r: Result<Env>)
    requires FoodSample(e.size, e.grid, chosen)
    ensures r.Err? <==> Count(e.grid, EMPTY) < NumFood(e.size)
    ensures r.Ok? ==> r.value.size == e.size && r.value.player == e.player
    ensures r.Ok? ==> Count(r.value.grid, FOOD) == Count(e.grid, FOOD) + NumFood(e.size)
  {
    var grid :- PlaceFood(e.size, e.grid, chosen);
    Ok(e.(grid := grid))
  }

  /** Food placement keeps the environment invariant: only empty cells change. */
  lemma GenerateFoodPreservesValid(e: Env, chosen: seq<Pos>)
    requires Valid(e) && FoodSample(e.size, e.grid, chosen)
    ensures GenerateFood(e, chosen).Ok? ==> Valid(GenerateFood(e, chosen).value)
  {
    var r := GenerateFood(e, chosen);
    if r.Ok? {
      var g' := r.value.grid;
      assert PlaceFood(e.size, e.grid, chosen) == Ok(g');
      assert Square(g', e.size) by {
        forall i | 0 <= i < e.size ensures |g'[i]| == e.size {
          assert InGrid(e.grid, Pos(i, 0));
          assert InGrid(g', Pos(i, e.size - 1));
          assert !InGrid(g', Pos(i, e.size));
        }
      }
    }
  }

  /** A fresh environment of side `s` can always be stocked when `s >= 2`, ending with exactly
      `ceil(s*s/9)` food cells and the creature's cell untouched; with `s == 1` the only cell is
      the creature's and the sample fails. */
  lemma FreshFood(c: Creature, s: int, maxEnergy: int, chosen: seq<Pos>)
    requires s >= 1
    requires FoodSample(s, StartGrid(s), chosen)
    ensures var r := GenerateFood(NewEnv(c, s, maxEnergy).value, chosen);
      && (r.Ok? <==> s >= 2)
      && (r.Ok? ==> Count(r.value.grid, FOOD) == NumFood(s) && At(r.value.grid, Center(s)) == CREATURE)
  {
    var e := NewEnv(c, s, maxEnergy).value;
    BlankCounts(s, FOOD);
    CountAfterPut(Blank(s), Center(s), CREATURE, EMPTY);
    CountAfterPut(Blank(s), Center(s), CREATURE, FOOD);
    assert Count(e.grid, EMPTY) == s * s - 1;
    assert Count(e.grid, FOOD) == 0;
    NumFoodFits(s);
  }

  lemma NumFoodFits(s: int)
    requires s >= 1
    ensures NumFood(s) <= s * s - 1 <==> s >= 2
  {
    var t := s * s;
    if s >= 2 {
      assert t >= 2 * s;
      assert t >= 4;
    } else {
      assert t == 1;
    }
  }

  /** What `step` returns besides the new state. */
  datatype StepOutcome = StepOutcome(env: Env, moved: bool, ate: bool)

  /** `step(action)`: 0 waits, 1 moves forward, 2 and 3 turn; anything else raises.
      Every accepted action ages the creature by one. */
  function Step(e: Env, action: int): (r: Result<StepOutcome>)
    requires WellFormed(e)
    ensures r.Err? <==> !IsAction(action)
    ensures r.Err? ==> r.fault == InvalidAction(action)
    ensures r.Ok? ==> WellFormed(r.value.env) && r.value.env.size == e.size
    ensures r.Ok? ==> r.value.env.player.age == e.player.age + 1
    ensures r.Ok? ==> r.value.env.player.maxEnergy == e.player.maxEnergy
    // waiting and turning touch nothing but orientation and age
    ensures r.Ok? && action != MOVE ==>
      var c' := r.value.env.player;
      && r.value.env.grid == e.grid && !r.value.moved && !r.value.ate
      && c'.(orientation := e.player.orientation, age := e.player.age) == e.player
    ensures r.Ok? && action == NOOP ==> r.value.env.player.orientation == e.player.orientation
    ensures r.Ok? && action == TURN_LEFT ==> r.value.env.player.orientation == TurnLeft(e.player.orientation)
    ensures r.Ok? && action == TURN_RIGHT ==> r.value.env.player.orientation == TurnRight(e.player.orientation)
    // a move off the grid only ages the creature
    ensures r.Ok? && action == MOVE && !InBounds(e.size, ForwardPos(e.player.pos, e.player.orientation)) ==>
      r.value == StepOutcome(e.(player := e.player.(age := e.player.age + 1)), false, false)
    // a move onto the grid
    ensures r.Ok? && action == MOVE && InBounds(e.size, ForwardPos(e.player.pos, e.player.orientation)) ==>
      var ahead := ForwardPos(e.player.pos, e.player.orientation);
      var c := e.player;
      var c' := r.value.env.player;
      var g' := r.value.env.grid;
      && r.value.moved
      && c'.pos == ahead && c'.orientation == c.orientation
      && At(g', ahead) == CREATURE && At(g', c.pos) == EMPTY
      && (forall p :: InGrid(e.grid, p) && p != ahead && p != c.pos ==> At(g', p) == At(e.grid, p))
      && (r.value.ate <==> At(e.grid, ahead) == FOOD)
      && c'.foodEaten == c.foodEaten + (if r.value.ate then 1 else 0)
      && c'.energy == Max(0, c.energy + (if r.value.ate then FOOD_ENERGY else 0) - 1)
      && (ahead in c.visited ==> c'.visited == c.visited)
      && (ahead !in c.visited ==> c'.visited == c.visited + [ahead])
  {
    var c := e.player;
    if !IsAction(action) then Err(InvalidAction(action))
    else if action == MOVE then
      var ahead := ForwardPos(c.pos, c.orientation);
      if InBounds(e.size, ahead) then
        var ate := At(e.grid, ahead) == FOOD;
        var eaten := if ate then c.foodEaten + 1 else c.foodEaten;
        var charged := if ate then c.energy + FOOD_ENERGY else c.energy;
        var grid := Put(Put(e.grid, c.pos, EMPTY), ahead, CREATURE);
        var visited := if ahead in c.visited then c.visited else c.visited + [ahead];
        var c' := c.(pos := ahead, foodEaten := eaten, visited := visited,
                     energy := Max(0, charged - 1), age := c.age + 1);
        Ok(StepOutcome(Env(e.size, grid, c'), true, ate))
      else
        Ok(StepOutcome(e.(player := c.(age := c.age + 1)), false, false))
    else
      var o := if action == TURN_LEFT then TurnLeft(c.orientation)
               else if action == TURN_RIGHT then TurnRight(c.orientation)
               else c.orientation;
      Ok(StepOutcome(e.(player := c.(orientation := o, age := c.age + 1)), false, false))
  }

  /** `step` keeps the environment invariant: one creature cell at the creature's position,
      position in bounds, orientation 0..3, energy at least 0, no repeated visit. */
  lemma StepPreservesValid(e: Env, action: int)
    requires Valid(e)
    ensures Step(e, action).Ok? ==> Valid(Step(e, action).value.env)
  {
    var r := Step(e, action);
    if r.Ok? && action == MOVE && r.value.moved {
      var e' := r.value.env;
      var c := e.player;
      var ahead := ForwardPos(c.pos, c.orientation);
      ForwardIsOneStep(c.pos, c.orientation);
      var visited := e'.player.visited;
      if ahead !in c.visited {
        forall i, j | 0 <= i < j < |visited| ensures visited[i] != visited[j] {
          if j == |visited| - 1 {
            assert visited[i] in c.visited;
          }
        }
      }
    }
  }

  /** Food is conserved by `step`: the food cells left plus the food eaten never change. */
  lemma StepConservesFood(e: Env, action: int)
    requires Valid(e)
    ensures Step(e, action).Ok? ==>
      Count(Step(e, action).value.env.grid, FOOD) + Step(e, action).value.env.player.foodEaten
      == Count(e.grid, FOOD) + e.player.foodEaten
  {
    var r := Step(e, action);
    if r.Ok? && action == MOVE && r.value.moved {
      var c := e.player;
      var ahead := ForwardPos(c.pos, c.orientation);
      ForwardIsOneStep(c.pos, c.orientation);
      var g1 := Put(e.grid, c.pos, EMPTY);
      CountAfterPut(e.grid, c.pos, EMPTY, FOOD);
      CountAfterPut(g1, ahead, CREATURE, FOOD);
    }
  }
}
