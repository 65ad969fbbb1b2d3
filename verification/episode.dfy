/** One scored episode: build an environment, stock it with food, take a fixed number of
    policy-chosen steps, score the terminal state; and the average of several such scores. */
module Episode {
  import opened Results
  import opened Grid
  import opened World
  import opened Sight
  import L = LegacyWorld

  /** Points per food cell eaten. */
  const EAT_SCORE: nat := 100
  /** The clean-sweep bonus of the backend simulators. */
  const BONUS: nat := 1000
  /** The clean-sweep bonus of the older top-level simulator. */
  const LEGACY_BONUS: nat := 10000
  /** Default episode lengths. */
  const STEPS: int := 10
  const LEGACY_STEPS: int := 20

  /** The fitness formula as the simulators compute it: the total food is what was eaten plus
      what is left, and the bonus is paid when the eaten count reaches that total. The eaten
      count reaches the total exactly when no food is left, so the bonus is paid exactly then. */
  function Score(foodEaten: nat, visitedCount: nat, grid: Cells, bonus: nat): (f: int)
    ensures f == foodEaten * EAT_SCORE + visitedCount + (if HasFood(grid) then 0 else bonus)
    ensures f >= 0
  {
    HasFoodIffCount(grid);
    var totalFood := foodEaten + Count(grid, FOOD);
    var base := foodEaten * EAT_SCORE + visitedCount;
    if foodEaten >= totalFood then base + bonus else base
  }

  /** The fitness of a terminal backend state. */
  function Fitness(e: Env, bonus: nat): int {
    Score(e.player.foodEaten, |e.player.visited|, e.grid, bonus)
  }

  /** Steps `i`, `i + 1`, ... `steps - 1` of an episode; the policy picks each action from the
      step number and the current state. Any invalid action aborts the episode. */
  function RunFrom(e: Env, policy: (nat, Env) -> int, i: nat, steps: int): (r: Result<Env>)
    requires WellFormed(e)
    ensures r.Ok? ==> WellFormed(r.value) && r.value.size == e.size
    ensures r.Ok? ==> r.value.player.age == e.player.age + Clamp(steps - i)
    ensures r.Ok? ==> r.value.player.maxEnergy == e.player.maxEnergy
    ensures r.Ok? ==> |r.value.player.visited| <= |e.player.visited| + Clamp(steps - i)
    ensures r.Err? ==> r.fault.InvalidAction?
    ensures (forall j: nat, x: Env :: IsAction(policy(j, x))) ==> r.Ok?
    decreases steps - i
  {
    if i >= steps then Ok(e)
    else
      var o :- Step(e, policy(i, e));
      RunFrom(o.env, policy, i + 1, steps)
  }

  /** `for i in range(steps): env.step(policy(...))`: exactly `steps` steps, no early stop. */
  function Run(e: Env, policy: (nat, Env) -> int, steps: int): Result<Env>
    requires WellFormed(e)
  {
    RunFrom(e, policy, 0, steps)
  }

  /** The environment invariant holds throughout an episode and the food is conserved. */
  lemma {:induction false} RunKeepsInvariants(e: Env, policy: (nat, Env) -> int, i: nat, steps: int)
    requires Valid(e)
    ensures var r := RunFrom(e, policy, i, steps);
      r.Ok? ==> (Valid(r.value)
                 && Count(r.value.grid, FOOD) + r.value.player.foodEaten == Count(e.grid, FOOD) + e.player.foodEaten)
    decreases steps - i
  {
    if i < steps {
      var a := policy(i, e);
      StepPreservesValid(e, a);
      StepConservesFood(e, a);
      if Step(e, a).Ok? {
        RunKeepsInvariants(Step(e, a).value.env, policy, i + 1, steps);
      }
    }
  }

  /** Environment construction, food placement and the steps of one episode on a grid of side
      `size`; `food` is the sample `random.sample` would draw. */
  function Episode(c: Creature, size: int, policy: (nat, Env) -> int, food: seq<Pos>, steps: int): (r: Result<Env>)
    requires size >= 1 ==> FoodSample(size, StartGrid(size), food)
    ensures r.Ok? ==> size >= 2 && r.value.size == size
    ensures r.Ok? ==> r.value.player.age == c.age + Clamp(steps)
    ensures r.Ok? ==> |r.value.player.visited| <= |c.visited| + Clamp(steps)
  {
    var e :- NewEnv(c, size, DEFAULT_MAX_ENERGY);
    FreshFood(c, size, DEFAULT_MAX_ENERGY, food);
    var stocked :- GenerateFood(e, food);
    Run(stocked, policy, steps)
  }

  /** Starting from a reset creature, the food eaten plus the food left is the food placed, the
      environment invariant holds at the end, and the final score pays the bonus exactly when
      everything placed has been eaten. */
  lemma EpisodeAccounting(size: int, policy: (nat, Env) -> int, food: seq<Pos>, steps: int)
    requires size >= 1 ==> FoodSample(size, StartGrid(size), food)
    ensures var r := Episode(NewCreature(DEFAULT_MAX_ENERGY), size, policy, food, steps);
      r.Ok? ==>
        && Valid(r.value)
        && Count(r.value.grid, FOOD) + r.value.player.foodEaten == NumFood(size)
        && Fitness(r.value, BONUS) == r.value.player.foodEaten * EAT_SCORE + |r.value.player.visited|
                                      + (if r.value.player.foodEaten == NumFood(size) then BONUS else 0)
  {
    var c := NewCreature(DEFAULT_MAX_ENERGY);
    var r := Episode(c, size, policy, food, steps);
    if r.Ok? {
      var e := NewEnv(c, size, DEFAULT_MAX_ENERGY).value;
      FreshFood(c, size, DEFAULT_MAX_ENERGY, food);
      var stocked := GenerateFood(e, food).value;
      GenerateFoodPreservesValid(e, food);
      RunKeepsInvariants(stocked, policy, 0, steps);
      HasFoodIffCount(r.value.grid);
    }
  }

  /** `simulate` of the quantum backend: a default 9 by 9 episode, scored with the 1000 bonus,
      after which the creature is reset. */
  function Simulate(c: Creature, policy: (nat, Env) -> int, food: seq<Pos>, steps: int): (r: Result<(Creature, int)>)
    requires FoodSample(DEFAULT_SIZE, StartGrid(DEFAULT_SIZE), food)
    ensures r.Ok? ==> r.value.0 == NewCreature(DEFAULT_MAX_ENERGY)
    ensures r.Ok? ==> r.value.1 >= 0
    ensures r.Ok? <==> Episode(c, DEFAULT_SIZE, policy, food, steps).Ok?
    ensures r.Ok? ==> var t := Episode(c, DEFAULT_SIZE, policy, food, steps).value;
      r.value.1 == t.player.foodEaten * EAT_SCORE + |t.player.visited| + (if HasFood(t.grid) then 0 else BONUS)
  {
    var t :- Episode(c, DEFAULT_SIZE, policy, food, steps);
    Ok((Reset(t.player), Fitness(t, BONUS)))
  }

  /** The classical creature's policy: the network applied to `get_sight(gridSize // 2)`. */
  function SightPolicy(net: (nat, Reading) -> int, gridSize: int): (nat, Env) -> int {
    (i: nat, e: Env) => net(i, GetSight(e, gridSize / 2))
  }

  /** A network that only picks actions makes a policy that only picks actions. */
  lemma SightPolicyActs(net: (nat, Reading) -> int, gridSize: int)
    requires forall j: nat, s: Reading :: IsAction(net(j, s))
    ensures forall j: nat, x: Env :: IsAction(SightPolicy(net, gridSize)(j, x))
  {
    forall j: nat, x: Env ensures IsAction(SightPolicy(net, gridSize)(j, x)) {
      assert IsAction(net(j, GetSight(x, gridSize / 2)));
    }
  }

  /** `simulate` of the classical backend: the same episode on a `gridSize` grid, where the
      network sees only `get_sight(gridSize // 2)`. */
  function SimulateClassical(c: Creature, net: (nat, Reading) -> int, food: seq<Pos>, steps: int, gridSize: int)
    : (r: Result<(Creature, int)>)
    requires gridSize >= 1 ==> FoodSample(gridSize, StartGrid(gridSize), food)
    ensures r.Ok? ==> gridSize >= 2 && r.value.0 == NewCreature(DEFAULT_MAX_ENERGY) && r.value.1 >= 0
    ensures r.Ok? <==> Episode(c, gridSize, SightPolicy(net, gridSize), food, steps).Ok?
  {
    var t :- Episode(c, gridSize, SightPolicy(net, gridSize), food, steps);
    Ok((Reset(t.player), Fitness(t, BONUS)))
  }

  /** Steps of an episode of the older world, whose policy ignores the world entirely. */
  function LegacyRunFrom(e: L.Env, policy: nat -> int, i: nat, steps: int): (r: Result<L.Env>)
    requires L.WellFormed(e)
    ensures r.Ok? ==> L.WellFormed(r.value) && r.value.size == e.size
    ensures r.Ok? ==> r.value.player.age == e.player.age + Clamp(steps - i)
    ensures r.Ok? ==> |r.value.player.visited| <= |e.player.visited| + Clamp(steps - i)
    ensures (forall j: nat :: IsAction(policy(j))) ==> r.Ok?
    decreases steps - i
  {
    if i >= steps then Ok(e)
    else
      var o :- L.Step(e, policy(i));
      LegacyRunFrom(o.env, policy, i + 1, steps)
  }

  lemma {:induction false} LegacyRunKeepsInvariants(e: L.Env, policy: nat -> int, i: nat, steps: int)
    requires L.Valid(e)
    ensures var r := LegacyRunFrom(e, policy, i, steps);
      r.Ok? ==> (L.Valid(r.value)
                 && Count(r.value.grid, FOOD) + r.value.player.foodEaten == Count(e.grid, FOOD) + e.player.foodEaten)
    decreases steps - i
  {
    if i < steps {
      var a := policy(i);
      L.StepPreservesValid(e, a);
      L.StepConservesFood(e, a);
      if L.Step(e, a).Ok? {
        LegacyRunKeepsInvariants(L.Step(e, a).value.env, policy, i + 1, steps);
      }
    }
  }

  /** `simulate` of the top-level program: a fresh creature in a fresh 5 by 5 world, `steps`
      steps, and the score with the 10000 bonus; the creature is returned as it ended. */
  function LegacySimulate(policy: nat -> int, food: seq<Pos>, steps: int): (r: Result<(L.Creature, int)>)
    requires FoodSample(L.DEFAULT_SIZE, StartGrid(L.DEFAULT_SIZE), food)
    ensures r.Ok? ==> r.value.0.age == Clamp(steps) && r.value.1 >= 0
    ensures r.Ok? ==> r.value.0.foodEaten <= 3 && |r.value.0.visited| <= Clamp(steps)
    ensures (forall j: nat :: IsAction(policy(j))) ==> r.Ok?
    ensures r.Ok? ==> r.value.1 == r.value.0.foodEaten * EAT_SCORE + |r.value.0.visited|
                                   + (if r.value.0.foodEaten == 3 then LEGACY_BONUS else 0)
  {
    var e := L.NewEnv(L.NewCreature(), L.DEFAULT_SIZE).value;
    L.DefaultWorldFood(L.NewCreature(), food);
    var stocked := L.GenerateFood(e, food).value;
    var t :- LegacyRunFrom(stocked, policy, 0, steps);
    LegacyRunKeepsInvariants(stocked, policy, 0, steps);
    HasFoodIffCount(t.grid);
    Ok((t.player, Score(t.player.foodEaten, |t.player.visited|, t.grid, LEGACY_BONUS)))
  }

  /** The seed of repeat `r`: `(hash(angles) + r) & 0xFFFFFFFF`, the low 32 bits of the sum. */
  function Seed(h: int, r: int): (s: int)
    ensures 0 <= s < 0x1_0000_0000
    ensures (h + r - s) % 0x1_0000_0000 == 0
  {
    (h + r) % 0x1_0000_0000
  }

  /** Different repeats of one evaluation (fewer than 2^32 of them) get different seeds. */
  lemma SeedsDistinct(h: int, r1: int, r2: int)
    requires 0 <= r1 < r2 < 0x1_0000_0000
    ensures Seed(h, r1) != Seed(h, r2)
  {
    var m := 0x1_0000_0000;
    var d := (h + r2) / m - (h + r1) / m;
    assert Seed(h, r2) - Seed(h, r1) == (r2 - r1) - d * m;
    if d > 0 {
      assert d * m >= m;
    } else if d < 0 {
      assert d * m <= -m;
    }
  }

  /** `total += f` over repeats `r .. repeats - 1`; the first failing run aborts the sum. */
  function SumFrom(r: nat, repeats: int, trial: nat -> Result<int>): Result<int>
    decreases repeats - r
  {
    if r >= repeats then Ok(0)
    else
      var f :- trial(r);
      var rest :- SumFrom(r + 1, repeats, trial);
      Ok(f + rest)
  }

  /** `evaluate_average`: the mean of the scores of repeats `0 .. repeats - 1`, where `seedOf`
      gives each repeat's seed and `simulate` the score of an episode with that seed. Zero
      repeats divide by zero; a negative count averages nothing to 0. */
  function EvaluateAverage(seedOf: nat -> int, repeats: int, simulate: int -> Result<int>): (r: Result<real>)
    ensures repeats == 0 ==> r == Err(DivisionByZero)
    ensures repeats < 0 ==> r == Ok(0.0)
  {
    var total :- SumFrom(0, repeats, (r: nat) => simulate(seedOf(r)));
    if repeats == 0 then Err(DivisionByZero) else Ok(total as real / repeats as real)
  }

  /** The seeds the quantum evaluators use: `(hash(angles) + r) & 0xFFFFFFFF`. */
  function HashSeeds(h: int): nat -> int {
    r => Seed(h, r)
  }

  lemma {:induction false} SumWithin(r: nat, repeats: int, trial: nat -> Result<int>, lo: int, hi: int)
    requires forall k: nat :: r <= k < repeats ==> trial(k).Ok? && lo <= trial(k).value <= hi
    ensures SumFrom(r, repeats, trial).Ok?
    ensures lo * Clamp(repeats - r) <= SumFrom(r, repeats, trial).value <= hi * Clamp(repeats - r)
    decreases repeats - r
  {
    if r < repeats {
      SumWithin(r + 1, repeats, trial, lo, hi);
      assert Clamp(repeats - r) == Clamp(repeats - (r + 1)) + 1;
    }
  }

  /** Dividing by a positive count keeps a total between `lo * n` and `hi * n` between `lo` and `hi`. */
  lemma MeanWithin(total: int, n: int, lo: int, hi: int)
    requires n > 0 && lo * n <= total <= hi * n
    ensures lo as real <= total as real / n as real <= hi as real
  {
    var m := n as real;
    var avg := total as real / m;
    assert avg * m == total as real;
    assert (lo * n) as real == lo as real * m;
    assert (hi * n) as real == hi as real * m;
    assert (avg - lo as real) * m >= 0.0;
    assert (hi as real - avg) * m >= 0.0;
  }

  /** Each of the first `repeats` runs succeeds with a score between `lo` and `hi`. */
  predicate TrialsWithin(seedOf: nat -> int, repeats: int, simulate: int -> Result<int>, lo: int, hi: int) {
    forall k: nat :: k < repeats ==> simulate(seedOf(k)).Ok? && lo <= simulate(seedOf(k)).value <= hi
  }

  /** When every run succeeds, the average lies between the smallest and the largest score. */
  lemma AverageWithin(seedOf: nat -> int, repeats: int, simulate: int -> Result<int>, lo: int, hi: int)
    requires repeats > 0 && TrialsWithin(seedOf, repeats, simulate, lo, hi)
    ensures EvaluateAverage(seedOf, repeats, simulate).Ok?
    ensures lo as real <= EvaluateAverage(seedOf, repeats, simulate).value <= hi as real
  {
    var trial := (r: nat) => simulate(seedOf(r));
    SumWithin(0, repeats, trial, lo, hi);
    var total := SumFrom(0, repeats, trial).value;
    MeanWithin(total, repeats, lo, hi);
  }

}
