# Quantum evolution: grid world, fitness and elitist selection

This is a Dafny model of the core of a small evolutionary system. A creature lives on a square grid.
Its cells are 0 (empty), 1 (the creature) and 2 (food). Each step it waits, moves forward or turns
left or right. An episode places `ceil(s*s/9)` food cells and takes a fixed number of steps. The
creature's actions come from a policy: a parameterised quantum circuit or a small neural network.
The episode's score is `100 * food eaten + cells visited`, plus a bonus when no food is left.
Evolution keeps a population of policy parameters. Each generation it breeds mutants, scores
everything by averaging several episodes, sorts by fitness (a stable sort, highest first) and
keeps the best.

The model covers:

- the backend world with energy (`World`), its sensor `get_sight` (`Sight`), and the older world
  without energy (`LegacyWorld`);
- the episodes and averaged fitness of all three simulators (`Episode`);
- the stable sort and truncation (`Ranking`) and the mutation operators (`Mutation`);
- the backend evolution loop (`Evolution`), the web generator `evolution_iter` (`WebEvolution`)
  and the top-level program's loop (`LegacyEvolution`);
- the two backend evolvers and the top-level program put together (`Backend`, `TopLevel`).

Everything is a pure function on immutable values. Errors the program raises are `Err` values:
an invalid action, `random.sample` asked for too much, an `IndexError` from an empty or short
list, and a division by zero when `repeats == 0`.

Randomness is an input. `random.sample` is a sequence constrained to be a sample of the empty cells.
Each `random.random()` draw is a value in `[0, 1]` indexed by generation, child and angle. Gaussian
noise is an unconstrained real. Python's `hash` is a function parameter. The policies are function
parameters too: the quantum circuit, the neural network and the runner are not modelled.

Some behaviours that may be surprising are modelled as written:

- `evolution` in `backend/simulate.py` and `backend/simulate_classical.py` keeps
  `min(elites, len(population))` parents, where `population` holds the mutants only. With
  `children <= 0` every parent is dropped; `Evolution.NoChildrenDropsParents` proves the
  consequence.
- The same loops print `cand_with_fit[2]` on every fifth generation and on the last. That is an
  `IndexError` on a pool of fewer than three (`Evolution.SmallFirstPoolFails`).
- The top-level loop prints `population[1]` and pads the kept parents by mutating the first. It
  therefore fails without children or without elites (`LegacyEvolution.LegacyGenerationSucceeds`).
- `evolution_iter` keeps `min(elites, len(cand_with_fit))`, so its parents never run out while
  `elites >= 1` (`WebEvolution.IterCompletes`).

## Model

| member | source | states |
|---|---|---|
| Grid.Blank | backend/environment.py:55 | the fresh grid is `size` rows of `size` cells, all empty |
| Grid.Put | backend/environment.py:112-113 | writing one cell sets it and leaves the shape and every other cell as they were |
| Grid.PutAll | backend/environment.py:90-91 | after writing `v` over a list of cells, exactly the listed cells hold `v` and the rest are unchanged |
| Grid.CountAfterPut | backend/environment.py:112-113 | overwriting a cell moves it from the count of its old code to the count of its new code |
| Grid.HasFoodIffCount | backend/environment.py:188-193 | `has_food` is true exactly when the number of food cells is positive |
| Grid.EmptyPositions | backend/environment.py:79-85 | `empty_positions` lists every empty cell, only empty cells, each once; its length is the count of empty cells |
| Grid.PutAllCounts | backend/environment.py:89-91 | marking k distinct empty cells as food raises the food count by k and lowers the empty count by k |
| Grid.BlankCounts | backend/environment.py:55 | a blank grid has `size*size` empty cells and no cell of any other code |
| Grid.InBounds | backend/environment.py:76-77 | `in_bounds`: both coordinates lie in `0 .. size-1`; `World.Step` blocks a move exactly when the cell ahead fails it |
| Grid.HasFood | backend/environment.py:188-193 | `has_food`'s scan for a food cell; `Grid.HasFoodIffCount` proves it holds iff the food count is positive |
| Heading.TurnLeft | backend/environment.py:33-34 | the new orientation is in 0..3 and one quarter turn before the old one, modulo 4 |
| Heading.TurnRight | backend/environment.py:36-37 | the new orientation is in 0..3 and one quarter turn after the old one, modulo 4 |
| Heading.TurnsInverse | backend/environment.py:33-37 | turning left and turning right undo each other for every orientation 0..3 |
| Heading.ForwardPos | backend/environment.py:23-32 | the cell ahead for each heading; `Heading.ForwardIsOneStep` proves it is an orthogonal neighbour and that turning round undoes the step |
| Heading.ForwardIsOneStep | backend/environment.py:23-32 | the cell ahead is an orthogonal neighbour, and turning around then stepping forward returns to the start |
| World.Reset | backend/environment.py:39-45 | reset gives the freshly constructed creature: origin, facing up, age 0, nothing eaten, no visits, full energy |
| World.NewCreature | backend/environment.py:6-15 | the constructed creature at `[0, 0]`, facing up, with full energy; `World.Reset` proves that `reset` returns exactly this record |
| World.NewEnv | backend/environment.py:53-60 | the creature is placed at `(s//2, s//2)`; only that cell holds 1; energy equals max energy; other fields are kept; sizes below 1 fail |
| World.NumFood | backend/environment.py:88 | the food count is the least k with `s*s <= 9k`, that is `ceil(s*s/9)` |
| World.PlaceFood | backend/environment.py:87-91 | fails iff there are fewer empty cells than food to place; otherwise only empty cells change, they become food, and the food count rises by `ceil(s*s/9)` |
| World.GenerateFood | backend/environment.py:87-91 | the creature is untouched and the food count rises by `ceil(s*s/9)`; fails iff too few cells are empty |
| World.GenerateFoodPreservesValid | backend/environment.py:87-91 | food placement keeps the invariant: one creature cell at the creature's position, codes 0..2 |
| World.FreshFood | backend/environment.py:87-91 | a fresh environment can be stocked iff `s >= 2`; it then has exactly `ceil(s*s/9)` food cells and the creature's cell still holds 1 |
| World.NumFoodFits | backend/environment.py:88-89 | `ceil(s*s/9)` food cells fit beside the creature iff `s >= 2` |
| World.Step | backend/environment.py:93-138 | actions outside 0..3 raise; every valid action ages the creature by 1; wait and turns change only orientation; a blocked move changes only age; a move vacates the old cell, occupies the new one, eats food iff present (+1 eaten, +5 energy), then sets energy to `max(0, energy - 1)` and records the cell only if it was not visited before |
| World.StepPreservesValid | backend/environment.py:93-128 | step keeps: exactly one creature cell at the position, position in bounds, orientation 0..3, energy at least 0, no repeated visit |
| World.StepConservesFood | backend/environment.py:105-114 | food left on the grid plus food eaten is unchanged by a step |
| Sight.RaysFollowHeading | backend/environment.py:195-205 | the front ray points where `forward_pos` moves; the left and right rays point where it moves after `turn_left` and `turn_right` |
| Sight.Blocks | backend/environment.py:207-223 | one block code per cell 1..n along the ray, none when `n < 1` |
| Sight.Proximity | backend/environment.py:234 | `(n - i)/n` lies in (0, 1] for every index of the ray |
| Sight.Scan | backend/environment.py:231-241 | the reading is `+(n-i)/n` or `-(n-i)/n` for the first food or wall at index i, 0 when there is none, and always in [-1, 1] |
| Sight.GetSight | backend/environment.py:227-243 | all three readings lie in [-1, 1]; with `n < 1` all three are 0 |
| Sight.RayReading | backend/environment.py:227-243 | a ray reads `+(n-i)/n` when its first non-clear cell is food, `-(n-i)/n` when it is off the grid, and 0 when every cell is clear |
| Sight.FoodTwoAhead | backend/environment.py:227-243 | facing up from the centre of a 9 by 9 grid with food two cells ahead, `get_sight(4)` is (0.75, 0, 0) |
| LegacyWorld.Reset | environment.py:34-39 | reset gives the freshly constructed creature |
| LegacyWorld.NewEnv | environment.py:47-52 | the creature is placed at `(s//2, s//2)`; only that cell holds 1; sizes below 1 fail |
| LegacyWorld.GenerateFood | environment.py:74-78 | `ceil(s*s/9)` empty cells become food and the creature is untouched; fails iff too few cells are empty |
| LegacyWorld.DefaultWorldFood | environment.py:74-78 | the default 5 by 5 world always receives exactly three food cells |
| LegacyWorld.Step | environment.py:80-115 | actions outside 0..3 raise; valid actions age by 1; waiting keeps the heading and turns apply one quarter turn, with no move and no meal; a blocked move changes only age; a move keeps the heading, vacates and occupies, eats iff food was there, and records only new cells |
| LegacyWorld.StepAgreesWithBackend | environment.py:80-107 | this version's step equals the backend step with the energy bookkeeping dropped, and both reject the same actions |
| LegacyWorld.StepPreservesValid | environment.py:80-107 | step keeps one creature cell at the position, position in bounds, orientation 0..3, no repeated visit |
| LegacyWorld.StepConservesFood | environment.py:88-96 | food left plus food eaten is unchanged by a step |
| Episode.Score | backend/simulate.py:15-23 | fitness is `100*eaten + visited`, plus the bonus exactly when no food cell is left, and is never negative |
| Episode.RunFrom | backend/simulate.py:9-11 | exactly `steps` steps with no early stop: age grows by `steps`, visits grow by at most `steps`, the grid keeps its size; the only failure is an invalid action, and a policy that returns only actions never fails |
| Episode.RunKeepsInvariants | backend/simulate.py:9-11 | the environment invariant holds after the steps, and food left plus food eaten is conserved |
| Episode.Episode | backend/simulate.py:7-11 | a completed episode is on a grid of at least 2 by 2; it aged the creature by `steps` and added at most `steps` visits |
| Episode.EpisodeAccounting | backend/simulate.py:7-23 | from a fresh creature: food eaten plus food left equals the food placed, the invariant holds, and the bonus is paid iff everything placed was eaten |
| Episode.Simulate | backend/simulate.py:6-25 | the returned creature is reset; the score is non-negative and follows the fitness formula on the terminal state; succeeds iff the episode does |
| Episode.SimulateClassical | backend/simulate_classical.py:7-26 | the network sees `get_sight(grid_size // 2)`; the returned creature is reset; the score is non-negative; succeeds iff that episode does |
| Episode.SightPolicyActs | backend/simulate_classical.py:10-12 | a network that only returns actions, fed the sight reading, gives a policy that only returns actions |
| Episode.LegacyRunFrom | main.py:13-15 | exactly `steps` steps: age grows by `steps`, visits by at most `steps`; a policy returning only actions never fails |
| Episode.LegacyRunKeepsInvariants | main.py:13-15 | the older world's invariant and food conservation hold after the steps |
| Episode.LegacySimulate | main.py:7-29 | score is `100*eaten + visited`, plus 10000 iff all three food cells were eaten; at most 3 eaten, at most `steps` visits; a policy returning only actions never fails |
| Episode.Seed | backend/simulate.py:40 | the seed lies in [0, 2^32) and is congruent to `hash + r` modulo 2^32 |
| Episode.SeedsDistinct | backend/simulate.py:39-40 | different repeats (fewer than 2^32) get different seeds |
| Episode.EvaluateAverage | backend/simulate.py:37-44 | zero repeats divide by zero; a negative count averages nothing to 0.0 |
| Episode.SumWithin | backend/simulate.py:39-43 | the running total of repeats whose scores lie in [lo, hi] lies in [lo * count, hi * count] |
| Episode.AverageWithin | backend/simulate.py:37-44 | when every run succeeds, the average lies between the smallest and the largest possible score |
| Ranking.Rank | backend/simulate.py:69 | the stable descending sort of the pool exists: a ranking of all indices |
| Ranking.RankingUnique | backend/simulate.py:69 | there is only one stable descending order of a pool |
| Ranking.RankingIsStableSort | backend/simulate.py:69 | a ranking lists every candidate exactly once, fitness never increases along it, and equal fitnesses keep their original order |
| Ranking.HeadIsFittest | backend/web_helpers.py:26-32 | the head of the sorted pool has maximal fitness and is the earliest candidate with that fitness |
| Ranking.Top | backend/simulate.py:74 | the first `min(m, len)` entries of the sorted order, none when m is negative |
| Ranking.TopKeepsTheBest | backend/simulate.py:69-74 | no candidate left out by truncation is fitter than any kept candidate |
| Mutation.Uniform | backend/simulate.py:32 | `random.uniform(lo, hi)` lies between its bounds |
| Mutation.Jitter | backend/simulate.py:32 | the shift added by a mutation is at most `sigma` in absolute value |
| Mutation.Mutate | backend/simulate.py:28-34 | a new list of the same length; each angle moves by at most `sigma`; angles whose gate draw exceeds `chance` are copied |
| Mutation.MutateIdentity | backend/simulate.py:28-34 | with a negative chance or a zero width the child equals its parent |
| Mutation.MutateClassical | backend/simulate_classical.py:29-38 | the same number of layers, each with its shape and entry count; layers whose gate exceeds `chance` are copied |
| Mutation.MutateClassicalKeepsShapes | backend/simulate_classical.py:29-38 | a mutated network has the same architecture, and every layer's entry count still matches its shape |
| Mutation.Normalize | main.py:75-77 | `angle % (2*pi)` lies in [0, 2*pi) and differs from the angle by whole turns |
| Mutation.NormalizeIdempotent | main.py:75-77 | normalising twice is normalising once; angles already in range are kept |
| Mutation.NormalizeAll | main.py:75-77 | every angle of the list is reduced into [0, 2*pi), and the length is kept |
| Evolution.OffspringLayout | backend/simulate.py:57-62 | the population has `children` mutants per parent in parent order: mutant k is bred from parent `k / children` |
| Evolution.Breed | backend/simulate.py:57-64 | the pool is the parents followed by their mutants: `len(parents) * (1 + children)` candidates, the parents first |
| Evolution.EvaluatePrefix | backend/simulate.py:65-67 | candidates are scored in pool order; the loop fails with the first failing evaluation and succeeds iff all succeed |
| Evolution.ScorePool | backend/simulate.py:65-69 | the scored pool keeps the candidates, records each one's fitness, and lists them in stable descending order |
| Evolution.Survivors | backend/simulate.py:74 | the next parents are the first `min(m, len(pool))` candidates of the sorted pool |
| Evolution.SurvivorsAreFittest | backend/simulate.py:69-74 | no candidate that is not kept is fitter than any kept one |
| Evolution.Generation | backend/simulate.py:56-74 | keeps `min(elites, len(population))` candidates, all from the pool; a logged generation with fewer than three candidates fails |
| Evolution.Founders | backend/simulate.py:51-54 | exactly `elites` starting parents, the j-th drawn by `start(j)` |
| Evolution.EvolveFrom | backend/simulate.py:56-84 | the generation loop: with no generations left it returns the parents unchanged; `Evolution.EvolveKeepsPopulation` and `Evolution.EvolvePreserves` state what every generation keeps |
| Evolution.Evolve | backend/simulate.py:47-84 | `evolution` from `elites` founders; `Evolution.EvolveKeepsPopulation`, `Evolution.NoChildrenDropsParents` and `Evolution.EvolvePreserves` carry its contract |
| Evolution.EvolveKeepsPopulation | backend/simulate.py:51-74 | with at least one child and one elite, every generation keeps exactly `elites` parents |
| Evolution.EmptyParentsFail | backend/simulate.py:71-72 | once the parent list is empty, the run fails at the next log line |
| Evolution.NoChildrenDropsParents | backend/simulate.py:74 | without children a single generation returns no parents, and two or more generations fail |
| Evolution.SmallFirstPoolFails | backend/simulate.py:71-72 | a first pool of fewer than three candidates fails on the first log line |
| Evolution.BreedPreserves | backend/simulate.py:57-64 | a property kept by mutation and held by the parents holds for every candidate of the pool |
| Evolution.GenerationPreserves | backend/simulate.py:56-74 | a property kept by mutation and held by the parents holds for every parent the generation hands on |
| Evolution.EvolvePreserves | backend/simulate.py:56-84 | a property kept by mutation and held by the starting parents holds for every parent returned |
| WebEvolution.Champion | backend/web_helpers.py:26-32 | the yielded champion is a candidate of maximal fitness, the earliest such; an empty pool raises |
| WebEvolution.Advance | backend/web_helpers.py:14-35 | an empty parent list has no champion and fails; the yield carries the generation number, and the next parents are `min(elites, len(cand_with_fit))` candidates headed by the champion |
| WebEvolution.AdvanceSucceeds | backend/web_helpers.py:14-29 | when no evaluation fails, a generation advances exactly when there are parents |
| WebEvolution.IterFrom | backend/web_helpers.py:13-37 | a loop with no generations left returns the best-so-far record and yields nothing more |
| WebEvolution.IterExtends | backend/web_helpers.py:31-32 | values already yielded are never taken back: every trace begins with them, in order |
| WebEvolution.IterYieldsEachGeneration | backend/web_helpers.py:13-32 | one yield per generation, numbered 0, 1, ... in order; a generator that returns yielded for every generation |
| WebEvolution.RecordStep | backend/web_helpers.py:28-29 | replacing the record only on a strict improvement keeps it the earliest yield of maximal fitness |
| WebEvolution.IterBestIsFirstMaximum | backend/web_helpers.py:11-37 | the returned `best_overall` is the earliest yielded champion of maximal fitness |
| WebEvolution.EvolutionIterContract | backend/web_helpers.py:4-37 | from the two fixed parents: yields numbered by generation, one per generation, and the returned record is the earliest best yield |
| WebEvolution.EvolutionIter | backend/web_helpers.py:4-37 | `evolution_iter` from the two fixed parents; `WebEvolution.EvolutionIterContract` and `WebEvolution.IterCompletes` carry its contract |
| WebEvolution.IterCompletes | backend/web_helpers.py:20-35 | with at least one elite the parents never run out and the generator returns; without elites it fails in the second generation |
| WebEvolution.ChampionLeads | backend/web_helpers.py:20-35 | the champion of a non-empty pool scores at least as much as the first pool entry and heads the next parents whenever any are kept |
| WebEvolution.ChampionScore | backend/web_helpers.py:21-26 | when fitness is the genome's own score, the champion's fitness is its score and at least the first parent's |
| WebEvolution.ChampionStep | backend/web_helpers.py:14-35 | one generation with an elite kept: the new yield does not fall below the last one, and the champion heads the next parents with its fitness |
| WebEvolution.ChampionsNeverWorsen | backend/web_helpers.py:20-35 | when fitness depends only on the genome and one elite is kept, yielded fitness never decreases |
| LegacyEvolution.LegacyPool | main.py:52-62 | each generation's pool holds exactly `2 * children` mutants |
| LegacyEvolution.LegacyPoolLayout | main.py:54-62 | the first `children` entries are mutants of `parent1`, the rest mutants of `parent2`; the parents themselves are not in the pool |
| LegacyEvolution.LegacyGeneration | main.py:51-77 | a logged generation without children fails; the next parents' angles all lie in [0, 2*pi) |
| LegacyEvolution.LegacyGenerationSelects | main.py:64-77 | `parent1` is the normalised head of the stably sorted pool, a fittest mutant; `parent2` is the normalised runner-up, at least as fit as every other mutant, when two are kept, and otherwise the normalised mutant of the head |
| LegacyEvolution.LegacyGenerationSucceeds | main.py:64-71 | when no evaluation fails, a generation succeeds iff there is at least one child and one elite |
| LegacyEvolution.LegacyGenerationKeepsCount | main.py:68-73 | both next parents have the angle count of the current parents |
| LegacyEvolution.LegacyKeepsAngleCount | main.py:48-73 | `parent1` and `parent2` keep the original angle count through every generation |
| LegacyEvolution.LegacyEvolveShape | main.py:48-73 | with the top-level mutation both final parents have six angles |
| LegacyEvolution.LegacyEvolveNormalized | main.py:75-77 | after at least one generation every angle of both parents lies in [0, 2*pi) |
| LegacyEvolution.LegacyEvolveSucceeds | main.py:51-73 | when no evaluation fails, a run of at least one generation completes iff there is at least one child and one elite |
| LegacyEvolution.LegacyEvolveFrom | main.py:51-77 | the generation loop: with no generations left it returns the parents unchanged; `LegacyEvolution.LegacyKeepsAngleCount` states what every generation keeps |
| LegacyEvolution.LegacyEvolve | main.py:46-81 | `evolution` from two parents of six right angles; `LegacyEvolution.LegacyEvolveShape`, `LegacyEvolution.LegacyEvolveNormalized` and `LegacyEvolution.LegacyEvolveSucceeds` carry its contract |
| Backend.DefaultFood | backend/environment.py:88 | the default 9 by 9 grid receives nine food cells |
| Backend.QuantumTrial | backend/simulate.py:6-25 | one seeded `simulate` of a fresh creature; `Backend.QuantumTrialBounds` carries its contract |
| Backend.QuantumEvaluate | backend/simulate.py:37-44 | `evaluate_average` over the hash-derived seeds; `Backend.QuantumEvaluateBounds` and `Episode.EvaluateAverage` carry its contract |
| Backend.QuantumEvolution | backend/simulate.py:47-84 | the quantum `evolution`; `Backend.QuantumEvolutionShape` carries its contract |
| Backend.QuantumTrialBounds | backend/simulate.py:6-25 | a policy returning only actions completes the episode with a score in [0, 1910] |
| Backend.QuantumTrialsWithin | backend/simulate.py:39-43 | with a runner returning only actions in every seeded run, each run of the average succeeds with a score in [0, 1910] |
| Backend.QuantumEvaluateBounds | backend/simulate.py:37-44 | with at least one repeat and a runner returning only actions in every run, the average fitness exists and lies in [0, 1910] |
| Backend.QuantumEvolutionShape | backend/simulate.py:47-84 | every returned angle list has one angle per circuit parameter, and with children and elites it returns `elites` of them |
| Backend.ClassicalTrialBounds | backend/simulate_classical.py:7-26 | on the default grid a network returning only actions completes the episode with a score in [0, 1910] |
| Backend.ClassicalTrial | backend/simulate_classical.py:7-26 | one seeded classical `simulate`; `Backend.ClassicalTrialBounds` carries its contract |
| Backend.ClassicalEvaluate | backend/simulate_classical.py:41-47 | the classical `evaluate_average` over drawn seeds; `Episode.EvaluateAverage` and `Episode.AverageWithin` carry its contract |
| Backend.ClassicalEvolution | backend/simulate_classical.py:50-79 | the classical `evolution`; `Backend.ClassicalEvolutionKeepsArchitecture` carries its contract |
| Backend.ClassicalEvolutionKeepsArchitecture | backend/simulate_classical.py:50-79 | every returned network has the architecture of the starting networks |
| TopLevel.LegacyTrialBounds | main.py:7-29 | a runner returning only actions completes the episode with a score in [0, 10320] |
| TopLevel.LegacyTrial | main.py:7-29 | one seeded top-level `simulate`; `TopLevel.LegacyTrialBounds` carries its contract |
| TopLevel.LegacyTrialsWithin | main.py:40-43 | with a runner returning only actions, every seeded run of the average succeeds with a score in [0, 10320] |
| TopLevel.LegacyEvaluateBounds | main.py:38-44 | with at least one repeat the average exists and lies in [0, 10320] |
| TopLevel.LegacyEvaluate | main.py:38-44 | the top-level `evaluate_average`; `TopLevel.LegacyEvaluateBounds` carries its contract |
| TopLevel.TopLevelEvolutionOutcome | main.py:46-81 | with valid runners and at least one repeat and generation: the run completes iff there are children and elites, and then both parents have six angles in [0, 2*pi) |
| TopLevel.TopLevelEvolution | main.py:46-81 | the top-level `evolution`; `TopLevel.TopLevelEvolutionOutcome` carries its contract |

## Left out

- The quantum circuit, the neural network and the runners are not part of this model. A policy is a function from the step number and the state (or the sight reading) to an action.
- `env.get_local_sight()` in `backend/simulate.py` does not exist in `backend/environment.py`. The quantum policy therefore receives the whole environment and may read whatever it likes.
- Random number generation is not modelled. Seeding (`random.seed`, the `if seed:` test that treats seed 0 as "no seed", and the top-level environment reseeding with 1) only decides which sample or draw is used. Samples and draws are inputs, so every seed behaviour is covered.
- Python's `hash` is a function parameter, and `random.randint` seeds of the classical evaluator are a parameter sequence.
- Floating point is modelled as exact reals. The angle constants are the decimal values the program writes.
- `normalize_angles` (modulo 4 pi) is never called by the modelled code and is left out.
- Printing, `render` and pygame drawing, the `__main__` blocks, and the file output are left out. The log lines are modelled only through the `IndexError` that reading a short pool raises.
- `backend/main.py` (the web server, its tasks and the stop event) and the frontend are not part of this model.
- The mutation copies (`list(angles)`, `w.copy()`) that keep the parent intact hold by construction, because every value is immutable.
- Episode.SimulateClassical: the contract states non-negativity and the reset but not the fitness formula. `Backend.ClassicalTrialBounds` and `Episode.EpisodeAccounting` state the formula for the default grid.
- Evolution.Generation: the contract states the count and origin of the next parents, not their order. `Evolution.SurvivorsAreFittest` and `Ranking.RankingIsStableSort` state the order.
- Mutation.MutateClassical: the Gaussian noise is an unconstrained real, so no bound on the change of a weight is stated.
