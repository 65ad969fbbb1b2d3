/** `evolution` of the top-level program: two parents, a pool made of their mutants only, the
    best two (padded by mutation when fewer are kept) become the next parents with every angle
    reduced modulo two pi. */
module LegacyEvolution {
  import opened Results
  import opened Ranking
  import opened Evolution
  import opened Mutation

  /** `[pi / 2] * 6`, both starting parents. */
  const START: seq<real> := [HALF_PI, HALF_PI, HALF_PI, HALF_PI, HALF_PI, HALF_PI]

  /** `parent1, parent2`. */
  datatype Parents = Parents(first: seq<real>, second: seq<real>)

  /** Every angle of both parents lies in `[0, 2 pi)`. */
  predicate Normalized(p: Parents) {
    && (forall k :: 0 <= k < |p.first| ==> 0.0 <= p.first[k] < TWO_PI)
    && (forall k :: 0 <= k < |p.second| ==> 0.0 <= p.second[k] < TWO_PI)
  }

  /** The pool of generation `i`: `children` mutants of `parent1`, then `children` of `parent2`. */
  function LegacyPool(p: Parents, children: int, mutate: (nat, nat, seq<real>) -> seq<real>, i: nat): (pool: seq<seq<real>>)
    ensures |pool| == 2 * Clamp(children)
  {
    OffspringLayout([p.first, p.second], children, mutate, i);
    Offspring([p.first, p.second], children, mutate, i)
  }

  /** The parents themselves are not in the pool: the first `children` entries are mutants of
      `parent1`, the rest mutants of `parent2`. */
  lemma LegacyPoolLayout(p: Parents, children: int, mutate: (nat, nat, seq<real>) -> seq<real>, i: nat)
    ensures var pool := LegacyPool(p, children, mutate, i);
      forall k :: 0 <= k < |pool| ==> pool[k] == mutate(i, k, if k < children then p.first else p.second)
  {
    var pool := LegacyPool(p, children, mutate, i);
    var c := Clamp(children);
    OffspringLayout([p.first, p.second], children, mutate, i);
    forall k | 0 <= k < |pool| ensures pool[k] == mutate(i, k, if k < children then p.first else p.second) {
      if k < c {
        DivUnique(k, c, 0, k);
      } else {
        DivUnique(k, c, 1, k - c);
      }
    }
  }

  /** One pass of the generation loop: score and sort the pool, print the log line (which reads
      `population[1]`, an IndexError on a pool of fewer than two), keep the first
      `min(elites, len(population))`, pad by mutating the first kept parent until there are two
      (an IndexError when none is kept), and reduce every angle modulo two pi. */
  function LegacyGeneration(i: nat, generations: int, p: Parents, children: int, elites: int,
                            mutate: (nat, nat, seq<real>) -> seq<real>,
                            evaluate: (nat, nat, seq<real>) -> Result<real>): (r: Result<Parents>)
    ensures Logged(i, generations) && children <= 0 ==> r.Err?
    ensures r.Ok? ==> Normalized(r.value)
  {
    var pool := LegacyPool(p, children, mutate, i);
    var s :- ScorePool(pool, evaluate, i);
    if Logged(i, generations) && |pool| < 2 then Err(IndexOutOfRange)
    else
      var kept := Survivors(s, Min(elites, |pool|));
      if |kept| == 0 then Err(IndexOutOfRange)
      else
        var padded := if |kept| < 2 then kept + [mutate(i, |pool|, kept[0])] else kept;
        Ok(Parents(NormalizeAll(padded[0]), NormalizeAll(padded[1])))
  }

  /** In a sorted pool of two or more, the second entry is at least as fit as every candidate
      other than the head. */
  lemma RunnerUp<G>(s: Scored<G>)
    requires WellScored(s) && |s.pool| >= 2
    ensures s.order[0] < |s.pool| && s.order[1] < |s.pool|
    ensures forall k :: 0 <= k < |s.pool| && k != s.order[0] ==> s.fits[k] <= s.fits[s.order[1]]
  {
    SurvivorsAreFittest(s, 2);
    assert s.order[1] in s.order;
    forall k | 0 <= k < |s.pool| && k != s.order[0] ensures s.fits[k] <= s.fits[s.order[1]] {
      if k in s.order[..2] {
        assert k == s.order[1];
      }
    }
  }

  /** Which mutants become the next parents: `parent1` is the normalised head of the sorted pool,
      a fittest mutant; `parent2` is the normalised runner-up when two are kept, and otherwise
      the normalised mutant of the head that the padding loop appends. */
  lemma LegacyGenerationSelects(i: nat, generations: int, p: Parents, children: int, elites: int,
                                mutate: (nat, nat, seq<real>) -> seq<real>,
                                evaluate: (nat, nat, seq<real>) -> Result<real>)
    ensures var pool := LegacyPool(p, children, mutate, i);
      var r := LegacyGeneration(i, generations, p, children, elites, mutate, evaluate);
      r.Ok? ==>
        && ScorePool(pool, evaluate, i).Ok? && Min(elites, |pool|) >= 1
        && var s := ScorePool(pool, evaluate, i).value;
        && r.value.first == NormalizeAll(s.pool[s.order[0]])
        && (forall k :: 0 <= k < |pool| ==> s.fits[k] <= s.fits[s.order[0]])
        && r.value.second == NormalizeAll(if Min(elites, |pool|) >= 2 then s.pool[s.order[1]]
                                          else mutate(i, |pool|, s.pool[s.order[0]]))
        && (Min(elites, |pool|) >= 2 ==>
              forall k :: 0 <= k < |pool| && k != s.order[0] ==> s.fits[k] <= s.fits[s.order[1]])
  {
    var pool := LegacyPool(p, children, mutate, i);
    var r := LegacyGeneration(i, generations, p, children, elites, mutate, evaluate);
    var scored := ScorePool(pool, evaluate, i);
    if r.Ok? {
      assert scored.Ok?;
      var s := scored.value;
      var m := Min(elites, |pool|);
      var kept := Survivors(s, m);
      assert |kept| >= 1 && kept[0] == s.pool[s.order[0]];
      HeadIsFittest(s.fits, s.order);
      if m >= 2 {
        assert kept[1] == s.pool[s.order[1]];
        RunnerUp(s);
      }
    }
  }

  /** Generations `i ..`. */
  function LegacyEvolveFrom(i: nat, generations: int, p: Parents, children: int, elites: int,
                            mutate: (nat, nat, seq<real>) -> seq<real>,
                            evaluate: (nat, nat, seq<real>) -> Result<real>): (r: Result<Parents>)
    ensures i >= generations ==> r == Ok(p)
    decreases generations - i
  {
    if i >= generations then Ok(p)
    else
      var next :- LegacyGeneration(i, generations, p, children, elites, mutate, evaluate);
      LegacyEvolveFrom(i + 1, generations, next, children, elites, mutate, evaluate)
  }

  /** `evolution(generations, children, chance, repeats, elites)`; the final `parent1, parent2`,
      which the program prints. */
  function LegacyEvolve(generations: int, children: int, elites: int, mutate: (nat, nat, seq<real>) -> seq<real>,
                        evaluate: (nat, nat, seq<real>) -> Result<real>): Result<Parents>
  {
    LegacyEvolveFrom(0, generations, Parents(START, START), children, elites, mutate, evaluate)
  }

  /** A generation succeeds exactly when its evaluations succeed, it has children to print (or
      does not print) and it keeps at least one of them. */
  lemma LegacyGenerationSucceeds(i: nat, generations: int, p: Parents, children: int, elites: int,
                                 mutate: (nat, nat, seq<real>) -> seq<real>,
                                 evaluate: (nat, nat, seq<real>) -> Result<real>)
    requires NeverFails(evaluate)
    ensures LegacyGeneration(i, generations, p, children, elites, mutate, evaluate).Ok?
            <==> children >= 1 && elites >= 1
  {
    var pool := LegacyPool(p, children, mutate, i);
    assert ScorePool(pool, evaluate, i).Ok?;
  }

  /** Mutation never changes the number of angles. */
  ghost predicate KeepsLength(mutate: (nat, nat, seq<real>) -> seq<real>) {
    forall g, k, x :: |mutate(g, k, x)| == |x|
  }

  /** Every genome of `gs` has `n` angles. */
  predicate AllOfLength(gs: seq<seq<real>>, n: nat) {
    forall k :: 0 <= k < |gs| ==> |gs[k]| == n
  }

  lemma LegacyPoolLengths(p: Parents, children: int, mutate: (nat, nat, seq<real>) -> seq<real>, i: nat, n: nat)
    requires KeepsLength(mutate)
    requires |p.first| == n && |p.second| == n
    ensures AllOfLength(LegacyPool(p, children, mutate, i), n)
  {
    LegacyPoolLayout(p, children, mutate, i);
  }

  lemma SurvivorLengths(s: Scored<seq<real>>, m: int, n: nat)
    requires WellScored(s) && AllOfLength(s.pool, n)
    ensures AllOfLength(Survivors(s, m), n)
  {
    var kept := Survivors(s, m);
    forall j | 0 <= j < |kept| ensures |kept[j]| == n {
      assert s.order[j] < |s.pool|;
    }
  }

  /** A generation whose mutation preserves the angle count hands on two parents of that count. */
  lemma LegacyGenerationKeepsCount(i: nat, generations: int, p: Parents, children: int, elites: int,
                                   mutate: (nat, nat, seq<real>) -> seq<real>,
                                   evaluate: (nat, nat, seq<real>) -> Result<real>, n: nat)
    requires KeepsLength(mutate)
    requires |p.first| == n && |p.second| == n
    ensures var r := LegacyGeneration(i, generations, p, children, elites, mutate, evaluate);
      r.Ok? ==> |r.value.first| == n && |r.value.second| == n
  {
    var pool := LegacyPool(p, children, mutate, i);
    var sc := ScorePool(pool, evaluate, i);
    if sc.Ok? {
      LegacyPoolLengths(p, children, mutate, i, n);
      SurvivorLengths(sc.value, Min(elites, |pool|), n);
    }
  }

  /** Mutation preserves the angle count, so does every generation: the two parents always have
      the original number of angles. */
  lemma {:induction false} LegacyKeepsAngleCount(i: nat, generations: int, p: Parents, children: int, elites: int,
                                                 mutate: (nat, nat, seq<real>) -> seq<real>,
                                                 evaluate: (nat, nat, seq<real>) -> Result<real>, n: nat)
    requires KeepsLength(mutate)
    requires |p.first| == n && |p.second| == n
    ensures var r := LegacyEvolveFrom(i, generations, p, children, elites, mutate, evaluate);
      r.Ok? ==> |r.value.first| == n && |r.value.second| == n
    decreases generations - i
  {
    if i < generations {
      var g := LegacyGeneration(i, generations, p, children, elites, mutate, evaluate);
      LegacyGenerationKeepsCount(i, generations, p, children, elites, mutate, evaluate, n);
      if g.Ok? {
        LegacyKeepsAngleCount(i + 1, generations, g.value, children, elites, mutate, evaluate, n);
      }
    }
  }

  /** With the top-level mutation, both final parents have six angles. */
  lemma LegacyEvolveShape(generations: int, children: int, elites: int, chance: real,
                          gate: (nat, nat) -> (nat -> Unit), draw: (nat, nat) -> (nat -> Unit),
                          evaluate: (nat, nat, seq<real>) -> Result<real>)
    ensures var mutate := (g: nat, k: nat, x: seq<real>) => Mutate(x, gate(g, k), draw(g, k), chance, LEGACY_SIGMA);
      var r := LegacyEvolve(generations, children, elites, mutate, evaluate);
      r.Ok? ==> |r.value.first| == 6 && |r.value.second| == 6
  {
    var mutate := (g: nat, k: nat, x: seq<real>) => Mutate(x, gate(g, k), draw(g, k), chance, LEGACY_SIGMA);
    forall g: nat, k: nat, x: seq<real> ensures |mutate(g, k, x)| == |x| {
      assert |Mutate(x, gate(g, k), draw(g, k), chance, LEGACY_SIGMA)| == |x|;
    }
    assert KeepsLength(mutate);
    LegacyKeepsAngleCount(0, generations, Parents(START, START), children, elites, mutate, evaluate, 6);
  }

  /** After at least one generation every angle of both parents lies in `[0, 2 pi)`. */
  lemma {:induction false} LegacyEvolveNormalized(i: nat, generations: int, p: Parents, children: int, elites: int,
                                                  mutate: (nat, nat, seq<real>) -> seq<real>,
                                                  evaluate: (nat, nat, seq<real>) -> Result<real>)
    requires i < generations
    ensures var r := LegacyEvolveFrom(i, generations, p, children, elites, mutate, evaluate);
      r.Ok? ==> Normalized(r.value)
    decreases generations - i
  {
    var g := LegacyGeneration(i, generations, p, children, elites, mutate, evaluate);
    if g.Ok? && i + 1 < generations {
      LegacyEvolveNormalized(i + 1, generations, g.value, children, elites, mutate, evaluate);
    }
  }

  /** When no evaluation fails, a run of at least one generation returns exactly when there is at
      least one child per parent and at least one elite. */
  lemma {:induction false} LegacyEvolveSucceeds(i: nat, generations: int, p: Parents, children: int, elites: int,
                                                mutate: (nat, nat, seq<real>) -> seq<real>,
                                                evaluate: (nat, nat, seq<real>) -> Result<real>)
    requires NeverFails(evaluate)
    requires i < generations
    ensures LegacyEvolveFrom(i, generations, p, children, elites, mutate, evaluate).Ok? <==> children >= 1 && elites >= 1
    decreases generations - i
  {
    var g := LegacyGeneration(i, generations, p, children, elites, mutate, evaluate);
    LegacyGenerationSucceeds(i, generations, p, children, elites, mutate, evaluate);
    if g.Ok? && i + 1 < generations {
      LegacyEvolveSucceeds(i + 1, generations, g.value, children, elites, mutate, evaluate);
    }
  }
}
