/** The elitist loop shared by the backend evolvers: each generation breeds `children` mutants per
    parent, scores parents and mutants together, sorts them by fitness and keeps the best. The
    genome type, the mutation and the fitness evaluation are parameters; `mutate(gen, k, p)` is
    child `k` of generation `gen` bred from `p`, and `evaluate(gen, k, g)` is the score of pool
    entry `k` of generation `gen`, so the random draws behind both are inputs. */
module Evolution {
  import opened Results
  import opened Ranking

  /** The mutants of parents `j ..`, `c` per parent, in parent order: the nested loops
      `for j in range(len(parents)): for _ in range(children): population.append(mutate(...))`. */
  function OffspringFrom<G>(parents: seq<G>, c: nat, mutate: (nat, nat, G) -> G, gen: nat, j: nat): seq<G>
    requires j <= |parents|
    decreases |parents| - j
  {
    if j == |parents| then []
    else seq(c, t requires 0 <= t < c => mutate(gen, j * c + t, parents[j])) + OffspringFrom(parents, c, mutate, gen, j + 1)
  }

  /** `population` of one generation; a negative `children` breeds nothing. */
  function Offspring<G>(parents: seq<G>, children: int, mutate: (nat, nat, G) -> G, gen: nat): seq<G> {
    OffspringFrom(parents, Clamp(children), mutate, gen, 0)
  }

  lemma MulAtLeast(d: int, c: int)
    requires c > 0 && d >= 1
    ensures d * c >= c
  {
  }

  /** Euclidean division is determined by quotient and remainder. */
  lemma DivUnique(k: int, c: int, q: int, r: int)
    requires c > 0 && 0 <= r < c && k == q * c + r
    ensures k / c == q
  {
    var q', r' := k / c, k % c;
    assert k == q' * c + r';
    assert (q - q') * c == r' - r;
    if q - q' >= 1 {
      MulAtLeast(q - q', c);
    }
    if q' - q >= 1 {
      MulAtLeast(q' - q, c);
    }
  }

  lemma DivStep(k: nat, c: nat)
    requires c > 0 && k >= c
    ensures (k - c) / c + 1 == k / c
  {
    var q, r := (k - c) / c, (k - c) % c;
    assert k == (q + 1) * c + r;
    DivUnique(k, c, q + 1, r);
  }

  lemma {:induction false} OffspringFromLength<G>(parents: seq<G>, c: nat, mutate: (nat, nat, G) -> G, gen: nat, j: nat)
    requires j <= |parents|
    ensures |OffspringFrom(parents, c, mutate, gen, j)| == (|parents| - j) * c
    decreases |parents| - j
  {
    if j < |parents| {
      OffspringFromLength(parents, c, mutate, gen, j + 1);
      assert (|parents| - j) * c == c + (|parents| - (j + 1)) * c;
    }
  }

  /** Entry `k` of the mutants of parents `j ..` is a child of parent `j + k / c`. */
  lemma {:induction false} OffspringFromAt<G>(parents: seq<G>, c: nat, mutate: (nat, nat, G) -> G, gen: nat, j: nat, k: nat)
    requires j <= |parents| && k < |OffspringFrom(parents, c, mutate, gen, j)|
    ensures c > 0 && j + k / c < |parents|
    ensures OffspringFrom(parents, c, mutate, gen, j)[k] == mutate(gen, j * c + k, parents[j + k / c])
    decreases |parents| - j
  {
    var head := seq(c, t requires 0 <= t < c => mutate(gen, j * c + t, parents[j]));
    var rest := OffspringFrom(parents, c, mutate, gen, j + 1);
    assert OffspringFrom(parents, c, mutate, gen, j) == head + rest;
    if k < c {
      assert k / c == 0;
      assert (head + rest)[k] == head[k];
    } else {
      var k' := k - c;
      assert (head + rest)[k] == rest[k'];
      OffspringFromAt(parents, c, mutate, gen, j + 1, k');
      DivStep(k, c);
      assert (j + 1) * c + k' == j * c + k;
    }
  }

  /** The population has `children` mutants per parent, grouped in parent order: mutant `k` is
      child `k` of parent `k / children`. */
  lemma OffspringLayout<G>(parents: seq<G>, children: int, mutate: (nat, nat, G) -> G, gen: nat)
    ensures |Offspring(parents, children, mutate, gen)| == |parents| * Clamp(children)
    ensures forall k :: 0 <= k < |Offspring(parents, children, mutate, gen)| ==>
              Clamp(children) > 0 && k / Clamp(children) < |parents|
              && Offspring(parents, children, mutate, gen)[k] == mutate(gen, k, parents[k / Clamp(children)])
  {
    OffspringFromLength(parents, Clamp(children), mutate, gen, 0);
    forall k | 0 <= k < |Offspring(parents, children, mutate, gen)|
      ensures Clamp(children) > 0 && k / Clamp(children) < |parents|
      ensures Offspring(parents, children, mutate, gen)[k] == mutate(gen, k, parents[k / Clamp(children)])
    {
      OffspringFromAt(parents, Clamp(children), mutate, gen, 0, k);
    }
  }

  /** `candidates = parents + population`. */
  function Breed<G>(parents: seq<G>, children: int, mutate: (nat, nat, G) -> G, gen: nat): (pool: seq<G>)
    ensures |pool| == |parents| + |parents| * Clamp(children)
    ensures pool[..|parents|] == parents
  {
    OffspringLayout(parents, children, mutate, gen);
    parents + Offspring(parents, children, mutate, gen)
  }

  /** The fitness of the first `n` pool entries, evaluated in pool order; the first failing
      evaluation ends the loop with its error. */
  function EvaluatePrefix<G>(pool: seq<G>, evaluate: (nat, nat, G) -> Result<real>, gen: nat, n: nat): (r: Result<seq<real>>)
    requires n <= |pool|
    ensures r.Ok? <==> forall k :: 0 <= k < n ==> evaluate(gen, k, pool[k]).Ok?
    ensures r.Ok? ==> |r.value| == n && forall k :: 0 <= k < n ==> evaluate(gen, k, pool[k]) == Ok(r.value[k])
    ensures r.Err? ==> exists k :: 0 <= k < n && evaluate(gen, k, pool[k]) == Err(r.fault)
                                  && forall m :: 0 <= m < k ==> evaluate(gen, m, pool[m]).Ok?
  {
    if n == 0 then Ok([])
    else
      var fits :- EvaluatePrefix(pool, evaluate, gen, n - 1);
      var f :- evaluate(gen, n - 1, pool[n - 1]);
      Ok(fits + [f])
  }

  /** A scored and sorted pool: `order` lists the pool indices as the stable descending sort
      leaves them. */
  datatype Scored<G> = Scored(pool: seq<G>, fits: seq<real>, order: seq<nat>)

  predicate WellScored<G>(s: Scored<G>) {
    |s.fits| == |s.pool| == |s.order| && IsRanking(s.fits, s.order)
  }

  /** `cand_with_fit` after `cand_with_fit.sort(key=lambda x: x[1], reverse=True)`. */
  function ScorePool<G>(pool: seq<G>, evaluate: (nat, nat, G) -> Result<real>, gen: nat): (r: Result<Scored<G>>)
    ensures r.Ok? <==> forall k :: 0 <= k < |pool| ==> evaluate(gen, k, pool[k]).Ok?
    ensures r.Ok? ==> r.value.pool == pool && WellScored(r.value)
    ensures r.Ok? ==> forall k :: 0 <= k < |pool| ==> evaluate(gen, k, pool[k]) == Ok(r.value.fits[k])
  {
    var fits :- EvaluatePrefix(pool, evaluate, gen, |pool|);
    RankingIsStableSort(fits, Rank(fits));
    Ok(Scored(pool, fits, Rank(fits)))
  }

  /** The pool entries at the given indices. */
  function Pick<G>(pool: seq<G>, idx: seq<nat>): (r: seq<G>)
    requires forall i :: 0 <= i < |idx| ==> idx[i] < |pool|
    ensures |r| == |idx| && forall i :: 0 <= i < |r| ==> r[i] == pool[idx[i]]
  {
    seq(|idx|, i requires 0 <= i < |idx| => pool[idx[i]])
  }

  /** `[cand_with_fit[j][0] for j in range(min(m, len(cand_with_fit)))]`: the first `m` entries
      of the sorted pool. */
  function Survivors<G>(s: Scored<G>, m: int): (r: seq<G>)
    requires WellScored(s)
    ensures |r| == Clamp(Min(m, |s.pool|))
    ensures forall i :: 0 <= i < |r| ==> r[i] == s.pool[s.order[i]] && r[i] in s.pool
  {
    RankingUnique(s.fits, s.order, Rank(s.fits));
    Pick(s.pool, Top(s.fits, m))
  }

  /** No candidate left out by truncation selection is fitter than any survivor. */
  lemma SurvivorsAreFittest<G>(s: Scored<G>, m: int)
    requires WellScored(s)
    ensures var n := |Survivors(s, m)|;
      forall i, k :: 0 <= i < n && 0 <= k < |s.pool| && k !in s.order[..n] ==> s.fits[k] <= s.fits[s.order[i]]
  {
    RankingUnique(s.fits, s.order, Rank(s.fits));
    TopKeepsTheBest(s.fits, m);
    var n := |Survivors(s, m)|;
    assert Top(s.fits, m) == s.order[..n];
  }

  /** `gen % 5 == 0 or gen == generations - 1`: the generations whose log line reads the first
      three pool entries. */
  predicate Logged(gen: nat, generations: int) {
    gen % 5 == 0 || gen == generations - 1
  }

  /** One pass of the generation loop of `evolution` in the quantum and classical backends: breed,
      score and sort the pool, print the log line (which reads `cand_with_fit[2]`, an IndexError
      on a pool of fewer than three), then keep the first `min(elites, len(population))` of the
      sorted pool, where `population` holds the mutants only. */
  function Generation<G>(gen: nat, generations: int, parents: seq<G>, children: int, elites: int,
                         mutate: (nat, nat, G) -> G, evaluate: (nat, nat, G) -> Result<real>): (r: Result<seq<G>>)
    ensures r.Ok? ==> |r.value| == Clamp(Min(elites, |parents| * Clamp(children)))
    ensures r.Ok? ==> forall i :: 0 <= i < |r.value| ==> r.value[i] in Breed(parents, children, mutate, gen)
    ensures Logged(gen, generations) && |parents| + |parents| * Clamp(children) < 3 ==> r.Err?
  {
    var pool := Breed(parents, children, mutate, gen);
    var s :- ScorePool(pool, evaluate, gen);
    if Logged(gen, generations) && |pool| < 3 then Err(IndexOutOfRange)
    else
      var population := |pool| - |parents|;
      assert population == |parents| * Clamp(children);
      var next := Survivors(s, Min(elites, population));
      Ok(next)
  }

  /** Generations `gen ..` of the backend `evolution`. */
  function EvolveFrom<G>(gen: nat, generations: int, parents: seq<G>, children: int, elites: int,
                         mutate: (nat, nat, G) -> G, evaluate: (nat, nat, G) -> Result<real>): (r: Result<seq<G>>)
    ensures gen >= generations ==> r == Ok(parents)
    decreases generations - gen
  {
    if gen >= generations then Ok(parents)
    else
      var next :- Generation(gen, generations, parents, children, elites, mutate, evaluate);
      EvolveFrom(gen + 1, generations, next, children, elites, mutate, evaluate)
  }

  /** The starting parents `[start(0), ..., start(elites - 1)]`, none when `elites` is not positive. */
  function Founders<G>(elites: int, start: nat -> G): (r: seq<G>)
    ensures |r| == Clamp(elites)
    ensures forall j :: 0 <= j < |r| ==> r[j] == start(j)
  {
    seq(Clamp(elites), (j: int) requires 0 <= j => start(j))
  }

  /** `evolution(generations, children, chance, repeats, elites)` from `elites` random parents;
      it returns the final parents. */
  function Evolve<G>(generations: int, children: int, elites: int, start: nat -> G,
                     mutate: (nat, nat, G) -> G, evaluate: (nat, nat, G) -> Result<real>): Result<seq<G>>
  {
    EvolveFrom(0, generations, Founders(elites, start), children, elites, mutate, evaluate)
  }

  /** With at least one child per parent and `elites` starting parents, every generation keeps
      exactly `elites` parents: the mutants alone outnumber the places. */
  lemma {:induction false} EvolveKeepsPopulation<G>(gen: nat, generations: int, parents: seq<G>, children: int, elites: int,
                                                    mutate: (nat, nat, G) -> G, evaluate: (nat, nat, G) -> Result<real>)
    requires elites >= 1 && children >= 1 && |parents| == elites
    ensures var r := EvolveFrom(gen, generations, parents, children, elites, mutate, evaluate);
      r.Ok? ==> |r.value| == elites
    decreases generations - gen
  {
    if gen < generations {
      var g := Generation(gen, generations, parents, children, elites, mutate, evaluate);
      assert |parents| * Clamp(children) >= elites by {
        MulAtLeast(children, elites);
        assert children * elites == elites * children;
      }
      if g.Ok? {
        EvolveKeepsPopulation(gen + 1, generations, g.value, children, elites, mutate, evaluate);
      }
    }
  }

  /** From an empty parent list every remaining generation scores an empty pool, and the last
      generation's log line then fails. */
  lemma {:induction false} EmptyParentsFail<G>(gen: nat, generations: int, children: int, elites: int,
                                               mutate: (nat, nat, G) -> G, evaluate: (nat, nat, G) -> Result<real>)
    requires gen < generations
    ensures EvolveFrom(gen, generations, [], children, elites, mutate, evaluate).Err?
    decreases generations - gen
  {
    if !Logged(gen, generations) {
      EmptyParentsFail(gen + 1, generations, children, elites, mutate, evaluate);
    }
  }

  /** Without children, the next parents are the first `min(elites, 0)` candidates, that is
      none: every parent is dropped after the first generation, and a run of two or more
      generations ends in the IndexError of the last log line. */
  lemma NoChildrenDropsParents<G>(generations: int, children: int, elites: int, start: nat -> G,
                                  mutate: (nat, nat, G) -> G, evaluate: (nat, nat, G) -> Result<real>)
    requires children <= 0
    ensures generations == 1 && Evolve(generations, children, elites, start, mutate, evaluate).Ok? ==>
              Evolve(generations, children, elites, start, mutate, evaluate).value == []
    ensures generations >= 2 ==> Evolve(generations, children, elites, start, mutate, evaluate).Err?
  {
    if generations >= 2 {
      EmptyParentsFail(1, generations, children, elites, mutate, evaluate);
    }
  }

  /** Generation 0 always logs, so a first pool of fewer than three candidates (fewer than three
      parents without children, or one parent with one child) never gets past it. */
  lemma SmallFirstPoolFails<G>(generations: int, children: int, elites: int, start: nat -> G,
                               mutate: (nat, nat, G) -> G, evaluate: (nat, nat, G) -> Result<real>)
    requires generations >= 1 && Clamp(elites) + Clamp(elites) * Clamp(children) < 3
    ensures Evolve(generations, children, elites, start, mutate, evaluate).Err?
  {
  }

  /** Every candidate of a pool bred by a mutation that preserves `P` from parents satisfying `P`
      satisfies `P`. */
  lemma BreedPreserves<G>(P: G -> bool, parents: seq<G>, children: int, mutate: (nat, nat, G) -> G, gen: nat)
    requires forall g', k, g :: P(g) ==> P(mutate(g', k, g))
    requires forall i :: 0 <= i < |parents| ==> P(parents[i])
    ensures forall g :: g in Breed(parents, children, mutate, gen) ==> P(g)
  {
    var pool := Breed(parents, children, mutate, gen);
    var o := Offspring(parents, children, mutate, gen);
    OffspringLayout(parents, children, mutate, gen);
    forall k | 0 <= k < |pool| ensures P(pool[k]) {
      if k >= |parents| {
        assert pool[k] == o[k - |parents|];
      }
    }
  }

  /** No evaluation fails. */
  ghost predicate NeverFails<G(!new)>(evaluate: (nat, nat, G) -> Result<real>) {
    forall g, k, x :: evaluate(g, k, x).Ok?
  }

  /** `P` holds of every mutant of a genome satisfying `P`. */
  ghost predicate MutationKeeps<G(!new)>(P: G -> bool, mutate: (nat, nat, G) -> G) {
    forall g', k, g :: P(g) ==> P(mutate(g', k, g))
  }

  /** `P` holds of every genome of `gs`. */
  predicate AllHold<G>(P: G -> bool, gs: seq<G>) {
    forall i :: 0 <= i < |gs| ==> P(gs[i])
  }

  /** A generation bred by a mutation that preserves `P` from parents satisfying `P` hands on
      parents satisfying `P`. */
  lemma GenerationPreserves<G(!new)>(P: G -> bool, gen: nat, generations: int, parents: seq<G>, children: int,
                               elites: int, mutate: (nat, nat, G) -> G, evaluate: (nat, nat, G) -> Result<real>)
    requires MutationKeeps(P, mutate) && AllHold(P, parents)
    ensures var r := Generation(gen, generations, parents, children, elites, mutate, evaluate);
      r.Ok? ==> AllHold(P, r.value)
  {
    BreedPreserves(P, parents, children, mutate, gen);
  }

  /** Anything every mutation preserves holds of every parent the loop ever returns: the genomes
      returned are the starting genomes and their mutants, never anything else. */
  lemma {:induction false} EvolvePreserves<G(!new)>(P: G -> bool, gen: nat, generations: int, parents: seq<G>, children: int,
                                              elites: int, mutate: (nat, nat, G) -> G,
                                              evaluate: (nat, nat, G) -> Result<real>)
    requires MutationKeeps(P, mutate) && AllHold(P, parents)
    ensures var r := EvolveFrom(gen, generations, parents, children, elites, mutate, evaluate);
      r.Ok? ==> AllHold(P, r.value)
    decreases generations - gen
  {
    if gen < generations {
      var g := Generation(gen, generations, parents, children, elites, mutate, evaluate);
      GenerationPreserves(P, gen, generations, parents, children, elites, mutate, evaluate);
      if g.Ok? {
        EvolvePreserves(P, gen + 1, generations, g.value, children, elites, mutate, evaluate);
      }
    }
  }
}
