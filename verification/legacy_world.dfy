/** The older grid world without energy: a 5 by 5 default grid, the same movement, food and
    visit bookkeeping, and no energy counter. */
module LegacyWorld {
  import opened Results
  import opened Grid
  import opened Heading
  import W = World

  const DEFAULT_SIZE: int := 5

  datatype Creature = Creature(pos: Pos, orientation: int, age: nat, foodEaten: nat, visited: seq<Pos>)

  function NewCreature(): Creature {
    Creature(Pos(0, 0), UP, 0, 0, [])
  }

  /** `reset` returns the creature to its constructed state. */
  function Reset(c: Creature): (c': Creature)
    ensures c' == NewCreature()
  {
    c.(pos := Pos(0, 0), age := 0, orientation := UP, foodEaten := 0, visited := [])
  }

  datatype Env = Env(size: int, grid: Cells, player: Creature)

  predicate WellFormed(e: Env) {
    e.size >= 1 && Square(e.grid, e.size) && InBounds(e.size, e.player.pos)
  }

  /** The invariant of this version: cell codes 0..2, one creature cell at the creature's
      position, orientation 0..3, no repeated visit. */
  ghost predicate Valid(e: Env) {
    && WellFormed(e)
    && (forall p :: InGrid(e.grid, p) ==> EMPTY <= At(e.grid, p) <= FOOD)
    && (forall p :: InGrid(e.grid, p) ==> (At(e.grid, p) == CREATURE <==> p == e.player.pos))
    && 0 <= e.player.orientation < 4
    && Distinct(e.player.visited)
  }

  /** `Environment(creature, s)`: the creature is placed at `(s // 2, s // 2)` and that cell is
      marked; a size below 1 raises IndexError. */
  function NewEnv(c: Creature, s: int): (r: Result<Env>)
    ensures r.Err? <==> s < 1
    ensures r.Ok? ==> r.value.size == s && Square(r.value.grid, s) && r.value.player.pos == W.Center(s)
    ensures r.Ok? ==> forall p :: InGrid(r.value.grid, p) ==>
                        At(r.value.grid, p) == if p == W.Center(s) then CREATURE else EMPTY
    ensures r.Ok? ==> r.value.player.(pos := c.pos) == c
    ensures r.Ok? && 0 <= c.orientation < 4 && Distinct(c.visited) ==> Valid(r.value)
  {
    if s < 1 then Err(IndexOutOfRange)
    else Ok(Env(s, W.StartGrid(s), c.(pos := W.Center(s))))
  }

  /** `generate_food`: `ceil(s*s/9)` sampled empty cells become food. */
  function GenerateFood(e: Env, chosen: seq<Pos>): (r: Result<Env>)
    requires W.FoodSample(e.size, e.grid, chosen)
    ensures r.Err? <==> Count(e.grid, EMPTY) < W.NumFood(e.size)
    ensures r.Ok? ==> r.value.size == e.size && r.value.player == e.player
    ensures r.Ok? ==> Count(r.value.grid, FOOD) == Count(e.grid, FOOD) + W.NumFood(e.size)
  {
    var grid :- W.PlaceFood(e.size, e.grid, chosen);
    Ok(e.(grid := grid))
  }

  /** The default 5 by 5 world receives exactly three food cells. */
  lemma DefaultWorldFood(c: Creature, chosen: seq<Pos>)
    requires W.FoodSample(DEFAULT_SIZE, W.StartGrid(DEFAULT_SIZE), chosen)
    ensures var r := GenerateFood(NewEnv(c, DEFAULT_SIZE).value, chosen);
      r.Ok? && Count(r.value.grid, FOOD) == 3
  {
    var g := W.StartGrid(DEFAULT_SIZE);
    BlankCounts(DEFAULT_SIZE, FOOD);
    CountAfterPut(Blank(DEFAULT_SIZE), W.Center(DEFAULT_SIZE), CREATURE, EMPTY);
    CountAfterPut(Blank(DEFAULT_SIZE), W.Center(DEFAULT_SIZE), CREATURE, FOOD);
    assert Count(g, EMPTY) == 24;
  }

  datatype StepOutcome = StepOutcome(env: Env, moved: bool, ate: bool)

  /** `step(action)` of this version: the backend's step without any energy bookkeeping. */
  function Step(e: Env, action: int): (r: Result<StepOutcome>)
    requires WellFormed(e)
    ensures r.Err? <==> !W.IsAction(action)
    ensures r.Err? ==> r.fault == InvalidAction(action)
    ensures r.Ok? ==> WellFormed(r.value.env) && r.value.env.size == e.size
    ensures r.Ok? ==> r.value.env.player.age == e.player.age + 1
    ensures r.Ok? && action != W.MOVE ==>
      && r.value.env.grid == e.grid && !r.value.moved && !r.value.ate
      && r.value.env.player.(orientation := e.player.orientation, age := e.player.age) == e.player
      && (action == W.NOOP ==> r.value.env.player.orientation == e.player.orientation)
      && (action == W.TURN_LEFT ==> r.value.env.player.orientation == TurnLeft(e.player.orientation))
      && (action == W.TURN_RIGHT ==> r.value.env.player.orientation == TurnRight(e.player.orientation))
    ensures r.Ok? && action == W.MOVE && !InBounds(e.size, ForwardPos(e.player.pos, e.player.orientation)) ==>
      r.value == StepOutcome(e.(player := e.player.(age := e.player.age + 1)), false, false)
    ensures r.Ok? && action == W.MOVE && InBounds(e.size, ForwardPos(e.player.pos, e.player.orientation)) ==>
      var ahead := ForwardPos(e.player.pos, e.player.orientation);
      var g' := r.value.env.grid;
      && r.value.moved && r.value.env.player.pos == ahead
      && At(g', ahead) == CREATURE && At(g', e.player.pos) == EMPTY
      && (forall p :: InGrid(e.grid, p) && p != ahead && p != e.player.pos ==> At(g', p) == At(e.grid, p))
      && (r.value.ate <==> At(e.grid, ahead) == FOOD)
      && r.value.env.player.foodEaten == e.player.foodEaten + (if r.value.ate then 1 else 0)
      && r.value.env.player.orientation == e.player.orientation
      && (ahead in e.player.visited ==> r.value.env.player.visited == e.player.visited)
      && (ahead !in e.player.visited ==> r.value.env.player.visited == e.player.visited + [ahead])
  {
    var c := e.player;
    if !W.IsAction(action) then Err(InvalidAction(action))
    else if action == W.MOVE then
      var ahead := ForwardPos(c.pos, c.orientation);
      if InBounds(e.size, ahead) then
        var ate := At(e.grid, ahead) == FOOD;
        var eaten := if ate then c.foodEaten + 1 else c.foodEaten;
        var grid := Put(Put(e.grid, c.pos, EMPTY), ahead, CREATURE);
        var visited := if ahead in c.visited then c.visited else c.visited + [ahead];
        Ok(StepOutcome(Env(e.size, grid, c.(pos := ahead, foodEaten := eaten, visited := visited, age := c.age + 1)),
                       true, ate))
      else
        Ok(StepOutcome(e.(player := c.(age := c.age + 1)), false, false))
    else
      var o := if action == W.TURN_LEFT then TurnLeft(c.orientation)
               else if action == W.TURN_RIGHT then TurnRight(c.orientation)
               else c.orientation;
      Ok(StepOutcome(e.(player := c.(orientation := o, age := c.age + 1)), false, false))
  }

  /** This version's environment seen as a backend environment with the given energy. */
  function Embed(e: Env, maxEnergy: int, energy: int): W.Env {
    var c := e.player;
    W.Env(e.size, e.grid, W.Creature(c.pos, c.orientation, c.age, c.foodEaten, c.visited, maxEnergy, energy))
  }

  /** A backend environment with its energy fields dropped. */
  function Forget(e: W.Env): Env {
    var c := e.player;
    Env(e.size, e.grid, Creature(c.pos, c.orientation, c.age, c.foodEaten, c.visited))
  }

  /** The two versions agree on everything but energy: stepping this version is stepping the
      backend with any energy and then dropping it, and both reject the same actions. */
  lemma StepAgreesWithBackend(e: Env, action: int, maxEnergy: int, energy: int)
    requires WellFormed(e)
    ensures W.WellFormed(Embed(e, maxEnergy, energy))
    ensures Step(e, action).Ok? <==> W.Step(Embed(e, maxEnergy, energy), action).Ok?
    ensures Step(e, action).Ok? ==>
      var b := W.Step(Embed(e, maxEnergy, energy), action).value;
      Step(e, action).value == StepOutcome(Forget(b.env), b.moved, b.ate)
  {
  }

  /** `step` keeps this version's invariant, including "no repeated visit". */
  lemma StepPreservesValid(e: Env, action: int)
    requires Valid(e)
    ensures Step(e, action).Ok? ==> Valid(Step(e, action).value.env)
  {
    var b := Embed(e, 0, 0);
    W.StepPreservesValid(b, action);
    StepAgreesWithBackend(e, action, 0, 0);
  }

  /** Food left on the grid plus food eaten never changes under `step`. */
  lemma StepConservesFood(e: Env, action: int)
    requires Valid(e)
    ensures Step(e, action).Ok? ==>
      Count(Step(e, action).value.env.grid, FOOD) + Step(e, action).value.env.player.foodEaten
      == Count(e.grid, FOOD) + e.player.foodEaten
  {
    W.StepConservesFood(Embed(e, 0, 0), action);
    StepAgreesWithBackend(e, action, 0, 0);
  }
}
