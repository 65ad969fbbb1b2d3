/** `evolution_iter`, the generator behind the web front end: the backend loop started from two
    fixed parents, yielding each generation's champion and tracking the best fitness seen. */
module WebEvolution {
  import opened Results
  import opened Ranking
  import opened Evolution

  /** `float('-inf')` or a finite fitness. */
  datatype Fit = NegInf | Finite(value: real)

  /** `fit > best`, where every finite fitness beats minus infinity. */
  predicate Exceeds(fit: real, best: Fit) {
    best.NegInf? || fit > best.value
  }

  /** One `yield gen, creature, fitness`. */
  datatype Yield<G> = Yield(gen: nat, champion: G, fitness: real)

  /** `best_overall`. */
  datatype Best<G> = Best(genome: G, fit: Fit)

  /** What a consumer of the generator sees: the values yielded, then either the returned
      `best_overall` or the exception that ended it. */
  datatype Trace<G> = Trace(yielded: seq<Yield<G>>, outcome: Result<Best<G>>)

  /** The two starting parents. */
  const FIRST_PARENT: seq<real> := [0.0, 1.0472, 3.1416, 3.6652, 0.0, 3.6652]
  const SECOND_PARENT: seq<real> := [4.1888, 0.5236, 4.1888, 2.6180, 0.5236, 1.0472]

  /** `cand_with_fit[0]` of the sorted pool: a fittest candidate, the earliest of them in pool
      order, and an IndexError on an empty pool. */
  function Champion<G>(s: Scored<G>): (r: Result<(G, real)>)
    requires WellScored(s)
    ensures r.Err? <==> |s.pool| == 0
    ensures r.Ok? ==> exists k :: 0 <= k < |s.pool| && r.value == (s.pool[k], s.fits[k])
                                  && (forall m :: 0 <= m < |s.pool| ==> s.fits[m] <= s.fits[k])
                                  && (forall m :: 0 <= m < k ==> s.fits[m] < s.fits[k])
  {
    if |s.pool| == 0 then Err(IndexOutOfRange)
    else
      HeadIsFittest(s.fits, s.order);
      var k := s.order[0];
      assert forall m :: 0 <= m < k ==> s.fits[m] < s.fits[k];
      Ok((s.pool[k], s.fits[k]))
  }

  /** `best_overall` after a champion of fitness `fit`: replaced only on a strict improvement. */
  function Improve<G>(best: Best<G>, champion: G, fit: real): Best<G> {
    if Exceeds(fit, best.fit) then Best(champion, Finite(fit)) else best
  }

  /** A sequence that begins with `acc + [y]` begins with `acc`. */
  lemma SnocPrefix<T>(acc: seq<T>, y: T, ys: seq<T>)
    requires |ys| >= |acc| + 1 && ys[..|acc| + 1] == acc + [y]
    ensures ys[..|acc|] == acc
  {
    assert ys[..|acc|] == ys[..|acc| + 1][..|acc|];
  }

  /** The champion of a non-empty pool is its first entry in sorted order, so it scores at least
      the pool's first entry and heads the survivors whenever any are kept. */
  lemma ChampionLeads<G>(s: Scored<G>, m: int)
    requires WellScored(s) && |s.pool| > 0
    ensures Champion(s).Ok? && Champion(s).value.1 >= s.fits[0]
    ensures Champion(s).value.1 == s.fits[s.order[0]]
    ensures |Survivors(s, m)| > 0 ==> Survivors(s, m)[0] == Champion(s).value.0
  {
    HeadIsFittest(s.fits, s.order);
  }

  /** One generation of the generator: breed and score the pool, take its champion, and carry
      the first `min(elites, len(cand_with_fit))` of the sorted pool over as the next parents.
      An empty pool has no champion. */
  function Advance<G>(gen: nat, parents: seq<G>, children: int, elites: int, mutate: (nat, nat, G) -> G,
                      evaluate: (nat, nat, G) -> Result<real>): (r: Result<(Yield<G>, seq<G>)>)
    ensures |parents| == 0 ==> r.Err?
    ensures r.Ok? ==> r.value.0.gen == gen
    ensures r.Ok? ==> |r.value.1| == Clamp(Min(elites, |parents| + |parents| * Clamp(children)))
    ensures r.Ok? && |r.value.1| > 0 ==> r.value.1[0] == r.value.0.champion
  {
    var pool := Breed(parents, children, mutate, gen);
    var s :- ScorePool(pool, evaluate, gen);
    var top :- Champion(s);
    var next := Survivors(s, Min(elites, |pool|));
    ChampionLeads(s, Min(elites, |pool|));
    Ok((Yield(gen, top.0, top.1), next))
  }

  /** Generations `gen ..` of the generator, with `acc` yielded so far: advance one generation,
      replace `best` only on a strict improvement, yield, and go on with the survivors. */
  function IterFrom<G>(gen: nat, generations: int, parents: seq<G>, best: Best<G>, children: int, elites: int,
                       mutate: (nat, nat, G) -> G, evaluate: (nat, nat, G) -> Result<real>,
                       acc: seq<Yield<G>>): (t: Trace<G>)
    ensures gen >= generations ==> t == Trace(acc, Ok(best))
    decreases generations - gen
  {
    if gen >= generations then Trace(acc, Ok(best))
    else
      match Advance(gen, parents, children, elites, mutate, evaluate)
      case Err(f) => Trace(acc, Err(f))
      case Ok(step) =>
        var y := step.0;
        IterFrom(gen + 1, generations, step.1, Improve(best, y.champion, y.fitness), children, elites,
                 mutate, evaluate, acc + [y])
  }

  /** What was yielded before is never taken back: the trace begins with `acc`. */
  lemma {:induction false} IterExtends<G>(gen: nat, generations: int, parents: seq<G>, best: Best<G>, children: int,
                                          elites: int, mutate: (nat, nat, G) -> G,
                                          evaluate: (nat, nat, G) -> Result<real>, acc: seq<Yield<G>>)
    ensures var t := IterFrom(gen, generations, parents, best, children, elites, mutate, evaluate, acc);
      |t.yielded| >= |acc| && t.yielded[..|acc|] == acc
    decreases generations - gen
  {
    if gen < generations {
      var a := Advance(gen, parents, children, elites, mutate, evaluate);
      if a.Ok? {
        var y := a.value.0;
        var best' := Improve(best, y.champion, y.fitness);
        IterExtends(gen + 1, generations, a.value.1, best', children, elites, mutate, evaluate, acc + [y]);
        SnocPrefix(acc, y, IterFrom(gen + 1, generations, a.value.1, best', children, elites, mutate, evaluate,
                                    acc + [y]).yielded);
      }
    }
  }

  /** `evolution_iter(generations, children, chance, repeats, elites)` as its consumer sees it. */
  function EvolutionIter(generations: int, children: int, elites: int, mutate: (nat, nat, seq<real>) -> seq<real>,
                         evaluate: (nat, nat, seq<real>) -> Result<real>): Trace<seq<real>>
  {
    IterFrom(0, generations, [FIRST_PARENT, SECOND_PARENT], Best(FIRST_PARENT, NegInf), children, elites,
             mutate, evaluate, [])
  }

  /** Yields are numbered by generation. */
  predicate Numbered<G>(ys: seq<Yield<G>>) {
    forall i :: 0 <= i < |ys| ==> ys[i].gen == i
  }

  lemma NumberedSnoc<G>(ys: seq<Yield<G>>, y: Yield<G>)
    requires Numbered(ys) && y.gen == |ys|
    ensures Numbered(ys + [y])
  {
  }

  /** Exactly one value per generation is yielded, in generation order, and a generator that
      returns has yielded for every generation. */
  lemma {:induction false} IterYieldsEachGeneration<G>(gen: nat, generations: int, parents: seq<G>, best: Best<G>,
                                                       children: int, elites: int, mutate: (nat, nat, G) -> G,
                                                       evaluate: (nat, nat, G) -> Result<real>, acc: seq<Yield<G>>)
    requires Numbered(acc) && |acc| == gen
    ensures var t := IterFrom(gen, generations, parents, best, children, elites, mutate, evaluate, acc);
      Numbered(t.yielded) && |t.yielded| <= Max(gen, generations)
      && (t.outcome.Ok? ==> |t.yielded| == Max(gen, generations))
    decreases generations - gen
  {
    if gen < generations {
      var a := Advance(gen, parents, children, elites, mutate, evaluate);
      if a.Ok? {
        var y := a.value.0;
        NumberedSnoc(acc, y);
        IterYieldsEachGeneration(gen + 1, generations, a.value.1, Improve(best, y.champion, y.fitness), children,
                                 elites, mutate, evaluate, acc + [y]);
      }
    }
  }

  function Max(a: int, b: int): int {
    if a >= b then a else b
  }

  /** Yield `m` is the earliest yield of maximal fitness. */
  predicate FirstMax<G>(ys: seq<Yield<G>>, m: int) {
    && 0 <= m < |ys|
    && (forall i :: 0 <= i < |ys| ==> ys[i].fitness <= ys[m].fitness)
    && (forall i :: 0 <= i < m ==> ys[i].fitness < ys[m].fitness)
  }

  /** `b` is the record of the yielded `ys` starting from minus infinity: the earliest champion of
      maximal fitness, or the starting record when nothing was yielded. */
  ghost predicate RecordOf<G>(ys: seq<Yield<G>>, start: G, b: Best<G>) {
    if |ys| == 0 then b == Best(start, NegInf)
    else exists m :: FirstMax(ys, m) && b == Best(ys[m].champion, Finite(ys[m].fitness))
  }

  lemma RecordStep<G>(ys: seq<Yield<G>>, start: G, b: Best<G>, y: Yield<G>)
    requires RecordOf(ys, start, b)
    ensures RecordOf(ys + [y], start, Improve(b, y.champion, y.fitness))
  {
    var ys' := ys + [y];
    if |ys| == 0 {
      assert FirstMax(ys', 0);
    } else {
      var m :| FirstMax(ys, m) && b == Best(ys[m].champion, Finite(ys[m].fitness));
      if Exceeds(y.fitness, b.fit) {
        assert FirstMax(ys', |ys|);
      } else {
        assert FirstMax(ys', m);
      }
    }
  }

  /** `best_overall` changes only on a strict improvement, so a generator that returns returns the
      earliest champion of maximal fitness among everything it yielded. */
  lemma {:induction false} IterBestIsFirstMaximum<G>(gen: nat, generations: int, parents: seq<G>, best: Best<G>,
                                                     children: int, elites: int, mutate: (nat, nat, G) -> G,
                                                     evaluate: (nat, nat, G) -> Result<real>, acc: seq<Yield<G>>, start: G)
    requires RecordOf(acc, start, best)
    ensures var t := IterFrom(gen, generations, parents, best, children, elites, mutate, evaluate, acc);
      t.outcome.Ok? ==> RecordOf(t.yielded, start, t.outcome.value)
    decreases generations - gen
  {
    if gen < generations {
      var a := Advance(gen, parents, children, elites, mutate, evaluate);
      if a.Ok? {
        var y := a.value.0;
        RecordStep(acc, start, best, y);
        IterBestIsFirstMaximum(gen + 1, generations, a.value.1, Improve(best, y.champion, y.fitness), children,
                               elites, mutate, evaluate, acc + [y], start);
      }
    }
  }

  /** The generator's contract for its consumer: one yield per generation in order, and the
      returned record is the earliest best yield (minus infinity when nothing was yielded). */
  lemma EvolutionIterContract(generations: int, children: int, elites: int, mutate: (nat, nat, seq<real>) -> seq<real>,
                              evaluate: (nat, nat, seq<real>) -> Result<real>)
    ensures var t := EvolutionIter(generations, children, elites, mutate, evaluate);
      && Numbered(t.yielded) && |t.yielded| <= Max(0, generations)
      && (t.outcome.Ok? ==> |t.yielded| == Max(0, generations) && RecordOf(t.yielded, FIRST_PARENT, t.outcome.value))
  {
    IterYieldsEachGeneration(0, generations, [FIRST_PARENT, SECOND_PARENT], Best(FIRST_PARENT, NegInf), children, elites,
                             mutate, evaluate, []);
    IterBestIsFirstMaximum(0, generations, [FIRST_PARENT, SECOND_PARENT], Best(FIRST_PARENT, NegInf), children, elites,
                           mutate, evaluate, [], FIRST_PARENT);
  }

  /** When no evaluation fails, a generation advances exactly when there are parents. */
  lemma AdvanceSucceeds<G(!new)>(gen: nat, parents: seq<G>, children: int, elites: int, mutate: (nat, nat, G) -> G,
                                 evaluate: (nat, nat, G) -> Result<real>)
    requires NeverFails(evaluate)
    ensures Advance(gen, parents, children, elites, mutate, evaluate).Ok? <==> |parents| > 0
  {
    var pool := Breed(parents, children, mutate, gen);
    assert ScorePool(pool, evaluate, gen).Ok?;
  }

  /** With at least one elite and evaluations that never fail, the parent list never empties,
      so the generator runs to completion; with no elite and two or more generations the second
      generation's pool is empty and reading its champion fails. */
  lemma {:induction false} IterCompletes<G(!new)>(gen: nat, generations: int, parents: seq<G>, best: Best<G>,
                                                  children: int, elites: int, mutate: (nat, nat, G) -> G,
                                                  evaluate: (nat, nat, G) -> Result<real>, acc: seq<Yield<G>>)
    requires NeverFails(evaluate)
    requires |parents| > 0
    ensures elites >= 1 ==> IterFrom(gen, generations, parents, best, children, elites, mutate, evaluate, acc).outcome.Ok?
    ensures elites <= 0 && gen + 2 <= generations ==>
              IterFrom(gen, generations, parents, best, children, elites, mutate, evaluate, acc).outcome.Err?
    decreases generations - gen
  {
    if gen < generations {
      AdvanceSucceeds(gen, parents, children, elites, mutate, evaluate);
      var a := Advance(gen, parents, children, elites, mutate, evaluate).value;
      var next := a.1;
      var best' := Improve(best, a.0.champion, a.0.fitness);
      if elites >= 1 {
        IterCompletes(gen + 1, generations, next, best', children, elites, mutate, evaluate, acc + [a.0]);
      } else if gen + 2 <= generations {
        assert next == [];
      }
    }
  }

  /** Every evaluation returns the genome's score, whatever the generation and pool position. */
  ghost predicate ScoredBy<G(!new)>(evaluate: (nat, nat, G) -> Result<real>, score: G -> real) {
    forall g, k, x :: evaluate(g, k, x) == Ok(score(x))
  }

  /** Yielded fitness never falls. */
  predicate Improving<G>(ys: seq<Yield<G>>) {
    forall i, j :: 0 <= i < j < |ys| ==> ys[i].fitness <= ys[j].fitness
  }

  lemma ImprovingSnoc<G>(ys: seq<Yield<G>>, y: Yield<G>)
    requires Improving(ys) && (|ys| > 0 ==> ys[|ys| - 1].fitness <= y.fitness)
    ensures Improving(ys + [y])
  {
  }

  /** The scored pool behind a generation that advanced: the parents come first, and the yield
      and the next parents are its champion and its survivors. */
  lemma AdvanceScored<G>(gen: nat, parents: seq<G>, children: int, elites: int, mutate: (nat, nat, G) -> G,
                         evaluate: (nat, nat, G) -> Result<real>) returns (s: Scored<G>)
    requires Advance(gen, parents, children, elites, mutate, evaluate).Ok?
    ensures WellScored(s) && |s.pool| >= |parents| > 0 && s.pool[..|parents|] == parents
    ensures forall k :: 0 <= k < |s.pool| ==> evaluate(gen, k, s.pool[k]) == Ok(s.fits[k])
    ensures Champion(s).Ok?
    ensures Advance(gen, parents, children, elites, mutate, evaluate).value
            == (Yield(gen, Champion(s).value.0, Champion(s).value.1), Survivors(s, Min(elites, |s.pool|)))
  {
    s := ScorePool(Breed(parents, children, mutate, gen), evaluate, gen).value;
  }

  /** When every evaluation is the genome's score, the champion's fitness is its own score, and
      it is at least the score of the pool's first entry. */
  lemma ChampionScore<G(!new)>(s: Scored<G>, evaluate: (nat, nat, G) -> Result<real>, score: G -> real, gen: nat)
    requires WellScored(s) && |s.pool| > 0 && ScoredBy(evaluate, score)
    requires forall k :: 0 <= k < |s.pool| ==> evaluate(gen, k, s.pool[k]) == Ok(s.fits[k])
    ensures Champion(s).Ok?
    ensures Champion(s).value.1 == score(Champion(s).value.0) >= score(s.pool[0])
    ensures Champion(s).value.1 == s.fits[s.order[0]]
  {
    ChampionLeads(s, 0);
    var k := s.order[0];
    assert s.fits[k] == score(s.pool[k]);
    assert s.fits[0] == score(s.pool[0]);
  }

  /** One generation of a run whose evaluation depends on the genome alone, from parents whose
      first one scores the last yielded fitness: the champion's fitness keeps the yields
      improving, and the champion heads the next parents with that fitness. */
  lemma ChampionStep<G(!new)>(gen: nat, parents: seq<G>, children: int, elites: int, mutate: (nat, nat, G) -> G,
                              evaluate: (nat, nat, G) -> Result<real>, score: G -> real, acc: seq<Yield<G>>)
    requires ScoredBy(evaluate, score)
    requires elites >= 1 && Improving(acc)
    requires |acc| > 0 ==> |parents| > 0 && score(parents[0]) == acc[|acc| - 1].fitness
    ensures var a := Advance(gen, parents, children, elites, mutate, evaluate);
      a.Ok? ==> Improving(acc + [a.value.0]) && |a.value.1| > 0 && score(a.value.1[0]) == a.value.0.fitness
  {
    var a := Advance(gen, parents, children, elites, mutate, evaluate);
    if a.Ok? {
      var s := AdvanceScored(gen, parents, children, elites, mutate, evaluate);
      ChampionLeads(s, Min(elites, |s.pool|));
      ChampionScore(s, evaluate, score, gen);
      ImprovingSnoc(acc, a.value.0);
    }
  }

  /** When a candidate's evaluation depends on its genome alone and at least one elite is kept,
      each generation's champion is carried into the next pool, so yielded fitness never falls. */
  lemma {:induction false} ChampionsNeverWorsen<G(!new)>(gen: nat, generations: int, parents: seq<G>, best: Best<G>,
                                                         children: int, elites: int, mutate: (nat, nat, G) -> G,
                                                         evaluate: (nat, nat, G) -> Result<real>, score: G -> real,
                                                         acc: seq<Yield<G>>)
    requires ScoredBy(evaluate, score)
    requires elites >= 1 && Improving(acc)
    requires |acc| > 0 ==> |parents| > 0 && score(parents[0]) == acc[|acc| - 1].fitness
    ensures Improving(IterFrom(gen, generations, parents, best, children, elites, mutate, evaluate, acc).yielded)
    decreases generations - gen
  {
    if gen < generations {
      var a := Advance(gen, parents, children, elites, mutate, evaluate);
      ChampionStep(gen, parents, children, elites, mutate, evaluate, score, acc);
      if a.Ok? {
        var y := a.value.0;
        ChampionsNeverWorsen(gen + 1, generations, a.value.1, Improve(best, y.champion, y.fitness),
                             children, elites, mutate, evaluate, score, acc + [y]);
      }
    }
  }

}
