/** The two backend evolvers put together: the quantum one evolves rotation angles scored by the
    9 by 9 episode, the classical one evolves network weights scored by the episode seen through
    `get_sight`. The quantum circuit and the neural network are abstract: `policyOf(angles, seed)` and
    `netOf(weights)` are the action choices they would make; the quantum runner samples shots, so
    its choices may differ from one seeded run to the next. */
module Backend {
  import opened Results
  import opened Grid
  import opened World
  import opened Sight
  import opened Episode
  import opened Mutation
  import opened Evolution

  /** pi, as the double closest to it. */
  const PI: real := 3.141592653589793
  /** Starting angles are drawn from `uniform(-12 pi, 12 pi)`. */
  const START_REACH: real := 12.0 * PI
  /** The highest score an episode of `STEPS` steps on the default grid can reach: every food cell
      eaten, a new cell visited on every step, and the bonus. */
  const MAX_SCORE: int := 9 * EAT_SCORE + STEPS + BONUS

  /** The default grid receives nine food cells. */
  lemma DefaultFood()
    ensures NumFood(DEFAULT_SIZE) == 9
  {
    var k := NumFood(DEFAULT_SIZE);
    assert 9 * (k - 1) < 81 <= 9 * k;
  }

  /** One `simulate(c, runner, seed=seed)` of the quantum backend for a fresh creature with the
      given angles; `foodFor(seed)` is the sample the seeded generator draws and
      `policyOf(angles, seed)` the choices the sampling runner makes in that run. */
  function QuantumTrial(angles: seq<real>, policyOf: (seq<real>, int) -> ((nat, Env) -> int), foodFor: int -> seq<Pos>,
                        seed: int): Result<int>
    requires FoodSample(DEFAULT_SIZE, StartGrid(DEFAULT_SIZE), foodFor(seed))
  {
    var out :- Simulate(NewCreature(DEFAULT_MAX_ENERGY), policyOf(angles, seed), foodFor(seed), STEPS);
    Ok(out.1)
  }

  /** A policy that only ever picks one of the four actions completes its episode, and the score
      lies between 0 and `MAX_SCORE`. */
  lemma QuantumTrialBounds(angles: seq<real>, policyOf: (seq<real>, int) -> ((nat, Env) -> int), foodFor: int -> seq<Pos>,
                           seed: int)
    requires FoodSample(DEFAULT_SIZE, StartGrid(DEFAULT_SIZE), foodFor(seed))
    requires forall j: nat, x: Env :: IsAction(policyOf(angles, seed)(j, x))
    ensures QuantumTrial(angles, policyOf, foodFor, seed).Ok?
    ensures 0 <= QuantumTrial(angles, policyOf, foodFor, seed).value <= MAX_SCORE
  {
    var c := NewCreature(DEFAULT_MAX_ENERGY);
    var policy := policyOf(angles, seed);
    var food := foodFor(seed);
    FreshFood(c, DEFAULT_SIZE, DEFAULT_MAX_ENERGY, food);
    EpisodeAccounting(DEFAULT_SIZE, policy, food, STEPS);
    DefaultFood();
    var t := Episode.Episode(c, DEFAULT_SIZE, policy, food, STEPS);
    assert t.Ok?;
    var eaten := t.value.player.foodEaten;
    assert eaten <= 9;
    assert |t.value.player.visited| <= STEPS;
    assert eaten * EAT_SCORE <= 9 * EAT_SCORE;
  }

  /** The quantum backend's run for each seed. */
  function QuantumTrials(angles: seq<real>, policyOf: (seq<real>, int) -> ((nat, Env) -> int), foodFor: int -> seq<Pos>)
    : int -> Result<int>
    requires forall seed :: FoodSample(DEFAULT_SIZE, StartGrid(DEFAULT_SIZE), foodFor(seed))
  {
    (seed: int) => QuantumTrial(angles, policyOf, foodFor, seed)
  }

  /** `evaluate_average(c, runner, repeats)` of the quantum backend: the mean over `repeats` runs
      seeded `(hash(angles) + r) & 0xFFFFFFFF`. */
  function QuantumEvaluate(angles: seq<real>, repeats: int, hash: seq<real> -> int,
                           policyOf: (seq<real>, int) -> ((nat, Env) -> int), foodFor: int -> seq<Pos>): Result<real>
    requires forall seed :: FoodSample(DEFAULT_SIZE, StartGrid(DEFAULT_SIZE), foodFor(seed))
  {
    EvaluateAverage(HashSeeds(hash(angles)), repeats, QuantumTrials(angles, policyOf, foodFor))
  }

  /** With a policy that only picks actions, every seeded run succeeds within the score bounds. */
  lemma QuantumTrialsWithin(angles: seq<real>, repeats: int, seeds: nat -> int,
                            policyOf: (seq<real>, int) -> ((nat, Env) -> int), foodFor: int -> seq<Pos>)
    requires forall seed :: FoodSample(DEFAULT_SIZE, StartGrid(DEFAULT_SIZE), foodFor(seed))
    requires forall seed: int, j: nat, x: Env :: IsAction(policyOf(angles, seed)(j, x))
    ensures TrialsWithin(seeds, repeats, QuantumTrials(angles, policyOf, foodFor), 0, MAX_SCORE)
  {
    forall k: nat | k < repeats
      ensures QuantumTrial(angles, policyOf, foodFor, seeds(k)).Ok?
      ensures 0 <= QuantumTrial(angles, policyOf, foodFor, seeds(k)).value <= MAX_SCORE
    {
      QuantumTrialBounds(angles, policyOf, foodFor, seeds(k));
    }
  }

  /** With a policy that only picks actions and at least one repeat, the average fitness exists
      and lies between 0 and `MAX_SCORE`. */
  lemma QuantumEvaluateBounds(angles: seq<real>, repeats: int, hash: seq<real> -> int,
                              policyOf: (seq<real>, int) -> ((nat, Env) -> int), foodFor: int -> seq<Pos>)
    requires forall seed :: FoodSample(DEFAULT_SIZE, StartGrid(DEFAULT_SIZE), foodFor(seed))
    requires forall seed: int, j: nat, x: Env :: IsAction(policyOf(angles, seed)(j, x))
    requires repeats >= 1
    ensures QuantumEvaluate(angles, repeats, hash, policyOf, foodFor).Ok?
    ensures 0.0 <= QuantumEvaluate(angles, repeats, hash, policyOf, foodFor).value <= MAX_SCORE as real
  {
    QuantumTrialsWithin(angles, repeats, HashSeeds(hash(angles)), policyOf, foodFor);
    AverageWithin(HashSeeds(hash(angles)), repeats, QuantumTrials(angles, policyOf, foodFor), 0, MAX_SCORE);
  }

  /** `evolution(generations, children, chance, repeats, elites)` of the quantum backend: `elites`
      random angle lists of the circuit's `width`, mutated with width `SIGMA` and scored by
      `QuantumEvaluate`. `start(j)(i)`, `gate(g, k)(i)` and `draw(g, k)(i)` are the
      `random.random()` draws behind angle `i` of starting parent `j` and of child `k` in
      generation `g`. */
  function QuantumEvolution(generations: int, children: int, chance: real, repeats: int, elites: int, width: nat,
                            start: nat -> (nat -> Unit), gate: (nat, nat) -> (nat -> Unit),
                            draw: (nat, nat) -> (nat -> Unit), hash: seq<real> -> int,
                            policyOf: (seq<real>, int) -> ((nat, Env) -> int), foodFor: int -> seq<Pos>): Result<seq<seq<real>>>
    requires forall seed :: FoodSample(DEFAULT_SIZE, StartGrid(DEFAULT_SIZE), foodFor(seed))
  {
    Evolve(generations, children, elites,
           (j: nat) => seq(width, i requires 0 <= i < width => Uniform(-START_REACH, START_REACH, start(j)(i))),
           (g: nat, k: nat, x: seq<real>) => Mutate(x, gate(g, k), draw(g, k), chance, SIGMA),
           (g: nat, k: nat, x: seq<real>) => QuantumEvaluate(x, repeats, hash, policyOf, foodFor))
  }

  /** Every parent the quantum evolver returns has one angle per circuit parameter, and with at
      least one child per parent it returns `elites` of them. */
  lemma QuantumEvolutionShape(generations: int, children: int, chance: real, repeats: int, elites: int, width: nat,
                              start: nat -> (nat -> Unit), gate: (nat, nat) -> (nat -> Unit),
                              draw: (nat, nat) -> (nat -> Unit), hash: seq<real> -> int,
                              policyOf: (seq<real>, int) -> ((nat, Env) -> int), foodFor: int -> seq<Pos>)
    requires forall seed :: FoodSample(DEFAULT_SIZE, StartGrid(DEFAULT_SIZE), foodFor(seed))
    ensures var r := QuantumEvolution(generations, children, chance, repeats, elites, width, start, gate, draw,
                                      hash, policyOf, foodFor);
      r.Ok? ==> ((forall i :: 0 <= i < |r.value| ==> |r.value[i]| == width)
                 && (elites >= 1 && children >= 1 ==> |r.value| == elites))
  {
    var first := (j: nat) => seq(width, i requires 0 <= i < width => Uniform(-START_REACH, START_REACH, start(j)(i)));
    var mutate := (g: nat, k: nat, x: seq<real>) => Mutate(x, gate(g, k), draw(g, k), chance, SIGMA);
    var evaluate := (g: nat, k: nat, x: seq<real>) => QuantumEvaluate(x, repeats, hash, policyOf, foodFor);
    var parents := Founders(elites, first);
    var P := (x: seq<real>) => |x| == width;
    forall g: nat, k: nat, x: seq<real> | P(x) ensures P(mutate(g, k, x)) {
      assert |Mutate(x, gate(g, k), draw(g, k), chance, SIGMA)| == |x|;
    }
    assert MutationKeeps(P, mutate);
    assert AllHold(P, parents);
    EvolvePreserves(P, 0, generations, parents, children, elites, mutate, evaluate);
    if elites >= 1 && children >= 1 {
      EvolveKeepsPopulation(0, generations, parents, children, elites, mutate, evaluate);
    }
  }

  /** One `simulate(c, c.model, seed=seed, grid_size=gridSize)` of the classical backend. */
  function ClassicalTrial(weights: seq<Layer>, netOf: seq<Layer> -> ((nat, Reading) -> int), foodFor: int -> seq<Pos>,
                          gridSize: int, seed: int): Result<int>
    requires gridSize >= 1 ==> FoodSample(gridSize, StartGrid(gridSize), foodFor(seed))
  {
    var out :- SimulateClassical(NewCreature(DEFAULT_MAX_ENERGY), netOf(weights), foodFor(seed), STEPS, gridSize);
    Ok(out.1)
  }

  /** On the default grid, a network that only ever picks one of the four actions completes its
      episode, and the score lies between 0 and `MAX_SCORE`. */
  lemma ClassicalTrialBounds(weights: seq<Layer>, netOf: seq<Layer> -> ((nat, Reading) -> int),
                             foodFor: int -> seq<Pos>, seed: int)
    requires FoodSample(DEFAULT_SIZE, StartGrid(DEFAULT_SIZE), foodFor(seed))
    requires forall j: nat, s: Reading :: IsAction(netOf(weights)(j, s))
    ensures ClassicalTrial(weights, netOf, foodFor, DEFAULT_SIZE, seed).Ok?
    ensures 0 <= ClassicalTrial(weights, netOf, foodFor, DEFAULT_SIZE, seed).value <= MAX_SCORE
  {
    var c := NewCreature(DEFAULT_MAX_ENERGY);
    var net := netOf(weights);
    var policy := SightPolicy(net, DEFAULT_SIZE);
    SightPolicyActs(net, DEFAULT_SIZE);
    var food := foodFor(seed);
    FreshFood(c, DEFAULT_SIZE, DEFAULT_MAX_ENERGY, food);
    EpisodeAccounting(DEFAULT_SIZE, policy, food, STEPS);
    DefaultFood();
    var t := Episode.Episode(c, DEFAULT_SIZE, policy, food, STEPS);
    assert t.Ok?;
    var eaten := t.value.player.foodEaten;
    assert eaten <= 9;
    assert eaten * EAT_SCORE <= 9 * EAT_SCORE;
    assert ClassicalTrial(weights, netOf, foodFor, DEFAULT_SIZE, seed) == Ok(Fitness(t.value, BONUS));
  }

  /** `evaluate_average` of the classical backend: the mean over `repeats` runs whose seeds are
      the `random.randint(0, 9999999)` draws `seeds(r)`. */
  function ClassicalEvaluate(weights: seq<Layer>, repeats: int, seeds: nat -> int,
                             netOf: seq<Layer> -> ((nat, Reading) -> int), foodFor: int -> seq<Pos>, gridSize: int)
    : Result<real>
    requires gridSize >= 1 ==> forall seed :: FoodSample(gridSize, StartGrid(gridSize), foodFor(seed))
  {
    EvaluateAverage(seeds, repeats, (seed: int) => ClassicalTrial(weights, netOf, foodFor, gridSize, seed))
  }

  /** The network's layers have the given shapes and matching entry counts. */
  predicate HasArchitecture(weights: seq<Layer>, arch: seq<seq<nat>>) {
    |weights| == |arch| && forall i :: 0 <= i < |weights| ==> weights[i].shape == arch[i] && WellShaped(weights[i])
  }

  /** `evolution` of the classical backend: `elites` freshly initialised networks `start(j)`,
      mutated layer by layer and scored by `ClassicalEvaluate` on the default grid. */
  function ClassicalEvolution(generations: int, children: int, chance: real, repeats: int, elites: int,
                              start: nat -> seq<Layer>, gate: (nat, nat) -> (nat -> Unit),
                              noise: (nat, nat) -> ((nat, nat) -> real), seeds: (nat, nat) -> (nat -> int),
                              netOf: seq<Layer> -> ((nat, Reading) -> int), foodFor: int -> seq<Pos>)
    : Result<seq<seq<Layer>>>
    requires forall seed :: FoodSample(DEFAULT_SIZE, StartGrid(DEFAULT_SIZE), foodFor(seed))
  {
    Evolve(generations, children, elites, start,
           (g: nat, k: nat, x: seq<Layer>) => MutateClassical(x, gate(g, k), noise(g, k), chance, CLASSICAL_SIGMA),
           (g: nat, k: nat, x: seq<Layer>) => ClassicalEvaluate(x, repeats, seeds(g, k), netOf, foodFor, DEFAULT_SIZE))
  }

  /** Mutation never changes the network architecture, so every network the classical evolver
      returns has the architecture its starting networks had. */
  lemma ClassicalEvolutionKeepsArchitecture(generations: int, children: int, chance: real, repeats: int, elites: int,
                                            start: nat -> seq<Layer>, gate: (nat, nat) -> (nat -> Unit),
                                            noise: (nat, nat) -> ((nat, nat) -> real), seeds: (nat, nat) -> (nat -> int),
                                            netOf: seq<Layer> -> ((nat, Reading) -> int), foodFor: int -> seq<Pos>,
                                            arch: seq<seq<nat>>)
    requires forall seed :: FoodSample(DEFAULT_SIZE, StartGrid(DEFAULT_SIZE), foodFor(seed))
    requires forall j: nat :: HasArchitecture(start(j), arch)
    ensures var r := ClassicalEvolution(generations, children, chance, repeats, elites, start, gate, noise, seeds,
                                        netOf, foodFor);
      r.Ok? ==> forall i :: 0 <= i < |r.value| ==> HasArchitecture(r.value[i], arch)
  {
    var mutate := (g: nat, k: nat, x: seq<Layer>) => MutateClassical(x, gate(g, k), noise(g, k), chance, CLASSICAL_SIGMA);
    var evaluate := (g: nat, k: nat, x: seq<Layer>) => ClassicalEvaluate(x, repeats, seeds(g, k), netOf, foodFor, DEFAULT_SIZE);
    var P := (x: seq<Layer>) => HasArchitecture(x, arch);
    forall g: nat, k: nat, x: seq<Layer> | P(x) ensures P(mutate(g, k, x)) {
      MutateClassicalKeepsShapes(x, gate(g, k), noise(g, k), chance, CLASSICAL_SIGMA);
    }
    var parents := Founders(elites, start);
    assert forall i :: 0 <= i < |parents| ==> P(parents[i]) by {
      forall i | 0 <= i < |parents| ensures P(parents[i]) {
        assert HasArchitecture(start(i), arch);
      }
    }
    assert MutationKeeps(P, mutate);
    EvolvePreserves(P, 0, generations, parents, children, elites, mutate, evaluate);
  }
}
