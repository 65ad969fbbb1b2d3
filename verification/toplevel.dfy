/** The top-level program put together: six angles per parent, mutated with width
    `LEGACY_SIGMA`, scored by the 5 by 5 episode with the 10000 bonus. The quantum runner is
    abstract: `policyOf(angles, seed)` is the action sequence it returns in the run with that
    seed. */
module TopLevel {
  import opened Results
  import opened Grid
  import opened World
  import opened Episode
  import opened Mutation
  import opened Evolution
  import opened LegacyEvolution
  import L = LegacyWorld

  /** The highest score a top-level episode can reach: all three food cells, a new cell on each
      of the `LEGACY_STEPS` steps, and the bonus. */
  const LEGACY_MAX_SCORE: int := 3 * EAT_SCORE + LEGACY_STEPS + LEGACY_BONUS

  /** One `simulate(angles, runner, seed=seed)`. The environment reseeds the generator with 1
      before placing food, so `food` is the same sample whatever the seed. */
  function LegacyTrial(angles: seq<real>, policyOf: (seq<real>, int) -> (nat -> int), food: seq<Pos>, seed: int)
    : Result<int>
    requires FoodSample(L.DEFAULT_SIZE, StartGrid(L.DEFAULT_SIZE), food)
  {
    var out :- LegacySimulate(policyOf(angles, seed), food, LEGACY_STEPS);
    Ok(out.1)
  }

  /** A runner that only returns actions completes the episode with a score between 0 and
      `LEGACY_MAX_SCORE`. */
  lemma LegacyTrialBounds(angles: seq<real>, policyOf: (seq<real>, int) -> (nat -> int), food: seq<Pos>, seed: int)
    requires FoodSample(L.DEFAULT_SIZE, StartGrid(L.DEFAULT_SIZE), food)
    requires forall j: nat :: IsAction(policyOf(angles, seed)(j))
    ensures LegacyTrial(angles, policyOf, food, seed).Ok?
    ensures 0 <= LegacyTrial(angles, policyOf, food, seed).value <= LEGACY_MAX_SCORE
  {
    var out := LegacySimulate(policyOf(angles, seed), food, LEGACY_STEPS).value;
    assert out.0.foodEaten * EAT_SCORE <= 3 * EAT_SCORE;
  }

  /** The top-level program's run for each seed. */
  function LegacyTrials(angles: seq<real>, policyOf: (seq<real>, int) -> (nat -> int), food: seq<Pos>)
    : int -> Result<int>
    requires FoodSample(L.DEFAULT_SIZE, StartGrid(L.DEFAULT_SIZE), food)
  {
    (seed: int) => LegacyTrial(angles, policyOf, food, seed)
  }

  /** `evaluate_average(angles, runner, repeats)` of the top-level program. */
  function LegacyEvaluate(angles: seq<real>, repeats: int, hash: seq<real> -> int,
                          policyOf: (seq<real>, int) -> (nat -> int), food: seq<Pos>): Result<real>
    requires FoodSample(L.DEFAULT_SIZE, StartGrid(L.DEFAULT_SIZE), food)
  {
    EvaluateAverage(HashSeeds(hash(angles)), repeats, LegacyTrials(angles, policyOf, food))
  }

  /** With a runner that only returns actions, every seeded run succeeds within the score bounds. */
  lemma LegacyTrialsWithin(angles: seq<real>, repeats: int, seeds: nat -> int,
                           policyOf: (seq<real>, int) -> (nat -> int), food: seq<Pos>)
    requires FoodSample(L.DEFAULT_SIZE, StartGrid(L.DEFAULT_SIZE), food)
    requires forall seed: int, j: nat :: IsAction(policyOf(angles, seed)(j))
    ensures TrialsWithin(seeds, repeats, LegacyTrials(angles, policyOf, food), 0, LEGACY_MAX_SCORE)
  {
    forall k: nat | k < repeats
      ensures LegacyTrial(angles, policyOf, food, seeds(k)).Ok?
      ensures 0 <= LegacyTrial(angles, policyOf, food, seeds(k)).value <= LEGACY_MAX_SCORE
    {
      LegacyTrialBounds(angles, policyOf, food, seeds(k));
    }
  }

  /** With a runner that only returns actions and at least one repeat, the average exists and
      lies between 0 and `LEGACY_MAX_SCORE`. */
  lemma LegacyEvaluateBounds(angles: seq<real>, repeats: int, hash: seq<real> -> int,
                             policyOf: (seq<real>, int) -> (nat -> int), food: seq<Pos>)
    requires FoodSample(L.DEFAULT_SIZE, StartGrid(L.DEFAULT_SIZE), food)
    requires forall seed: int, j: nat :: IsAction(policyOf(angles, seed)(j))
    requires repeats >= 1
    ensures LegacyEvaluate(angles, repeats, hash, policyOf, food).Ok?
    ensures 0.0 <= LegacyEvaluate(angles, repeats, hash, policyOf, food).value <= LEGACY_MAX_SCORE as real
  {
    LegacyTrialsWithin(angles, repeats, HashSeeds(hash(angles)), policyOf, food);
    AverageWithin(HashSeeds(hash(angles)), repeats, LegacyTrials(angles, policyOf, food), 0, LEGACY_MAX_SCORE);
  }

  /** `evolution(generations, children, chance, repeats, elites)` of the top-level program;
      `gate(i, k)` and `draw(i, k)` are the draws behind child `k` of generation `i`. */
  function TopLevelEvolution(generations: int, children: int, chance: real, repeats: int, elites: int,
                             gate: (nat, nat) -> (nat -> Unit), draw: (nat, nat) -> (nat -> Unit),
                             hash: seq<real> -> int, policyOf: (seq<real>, int) -> (nat -> int), food: seq<Pos>)
    : Result<Parents>
    requires FoodSample(L.DEFAULT_SIZE, StartGrid(L.DEFAULT_SIZE), food)
  {
    LegacyEvolve(generations, children, elites,
                 (g: nat, k: nat, x: seq<real>) => Mutate(x, gate(g, k), draw(g, k), chance, LEGACY_SIGMA),
                 (g: nat, k: nat, x: seq<real>) => LegacyEvaluate(x, repeats, hash, policyOf, food))
  }

  /** With a runner that only returns actions and at least one repeat, a run of at least one
      generation finishes exactly when there is at least one child per parent and at least one
      elite, and then both final parents have six angles, each in `[0, 2 pi)`. */
  lemma TopLevelEvolutionOutcome(generations: int, children: int, chance: real, repeats: int, elites: int,
                                 gate: (nat, nat) -> (nat -> Unit), draw: (nat, nat) -> (nat -> Unit),
                                 hash: seq<real> -> int, policyOf: (seq<real>, int) -> (nat -> int), food: seq<Pos>)
    requires FoodSample(L.DEFAULT_SIZE, StartGrid(L.DEFAULT_SIZE), food)
    requires forall angles: seq<real>, seed: int, j: nat :: IsAction(policyOf(angles, seed)(j))
    requires repeats >= 1 && generations >= 1
    ensures var r := TopLevelEvolution(generations, children, chance, repeats, elites, gate, draw, hash, policyOf, food);
      && (r.Ok? <==> children >= 1 && elites >= 1)
      && (r.Ok? ==> |r.value.first| == 6 && |r.value.second| == 6)
      && (r.Ok? ==> Normalized(r.value))
  {
    var mutate := (g: nat, k: nat, x: seq<real>) => Mutate(x, gate(g, k), draw(g, k), chance, LEGACY_SIGMA);
    var evaluate := (g: nat, k: nat, x: seq<real>) => LegacyEvaluate(x, repeats, hash, policyOf, food);
    forall g: nat, k: nat, x: seq<real> ensures evaluate(g, k, x).Ok? {
      LegacyEvaluateBounds(x, repeats, hash, policyOf, food);
    }
    forall g: nat, k: nat, x: seq<real> ensures |mutate(g, k, x)| == |x| {
      assert |Mutate(x, gate(g, k), draw(g, k), chance, LEGACY_SIGMA)| == |x|;
    }
    assert NeverFails(evaluate) && KeepsLength(mutate);
    var start := Parents(START, START);
    LegacyEvolveSucceeds(0, generations, start, children, elites, mutate, evaluate);
    LegacyKeepsAngleCount(0, generations, start, children, elites, mutate, evaluate, 6);
    LegacyEvolveNormalized(0, generations, start, children, elites, mutate, evaluate);
  }
}
