/** The driver `eda_optimize_schedule`. The random sampler is replaced by
    its output: `populations[i - 1]` is the population drawn in iteration
    `i`, each candidate placing every task on a listed VM. */
module Eda {
  import opened Records
  import opened Aggregates
  import opened Makespan
  import opened Greedy
  import opened Probability
  import opened Selection

  /** The best schedule found so far and its cost. */
  datatype Incumbent = Incumbent(assignment: Assignment, cost: real)

  /** The incumbent update of one round: the round's best takes over only
      when it is strictly cheaper, so the cost never rises, ends no higher
      than the round's best, and an unchanged cost means an unchanged
      incumbent. */
  function Replace(inc: Incumbent, roundBest: Scored): (r: Incumbent)
    ensures r.cost <= inc.cost && r.cost <= roundBest.cost
    ensures r == inc || r == Incumbent(roundBest.solution, roundBest.cost)
    ensures r.cost == inc.cost ==> r == inc
  {
    if roundBest.cost < inc.cost then Incumbent(roundBest.solution, roundBest.cost) else inc
  }

  /** Every round drew at least one candidate, so each has a head. */
  predicate NonEmptyRounds(history: seq<seq<Scored>>) {
    forall r :: 0 <= r < |history| ==> |history[r]| > 0
  }

  /** A prefix of non-empty rounds is non-empty rounds. */
  lemma PrefixNonEmpty(history: seq<seq<Scored>>, m: nat)
    requires NonEmptyRounds(history) && m <= |history|
    ensures NonEmptyRounds(history[..m])
  {
    forall r | 0 <= r < m ensures |history[..m][r]| > 0 {
      assert history[..m][r] == history[r];
    }
  }

  /** The cheapest candidate of one round, the head of its ranking. */
  function RoundBest(ev: seq<Scored>): Scored
    requires |ev| > 0
  {
    Rank(ev)[0]
  }

  /** The best of every round, in round order. */
  function Bests(history: seq<seq<Scored>>): (bests: seq<Scored>)
    requires NonEmptyRounds(history)
    ensures |bests| == |history|
    ensures forall r :: 0 <= r < |history| ==> bests[r] == RoundBest(history[r])
  {
    seq(|history|, r requires 0 <= r < |history| => RoundBest(history[r]))
  }

  /** The incumbent after rounds whose bests were `bests`, one `Replace`
      after the other, starting from `seed`. */
  function Rounds(seed: Incumbent, bests: seq<Scored>): Incumbent {
    if |bests| == 0 then seed
    else Replace(Rounds(seed, bests[..|bests| - 1]), bests[|bests| - 1])
  }

  /** Every population scored, in iteration order. */
  function EvaluateAll(populations: seq<seq<Assignment>>, tasks: seq<Task>, vms: seq<Vm>): (h: seq<seq<Scored>>)
    requires ValidInstance(tasks, vms)
    requires forall i, j :: 0 <= i < |populations| && 0 <= j < |populations[i]| ==> Consistent(populations[i][j], tasks, vms)
    ensures |h| == |populations|
    ensures forall i :: 0 <= i < |populations| ==> h[i] == Evaluate(populations[i], tasks, vms)
    ensures (forall i :: 0 <= i < |populations| ==> |populations[i]| > 0) ==> NonEmptyRounds(h)
  {
    seq(|populations|, i requires 0 <= i < |populations| => Evaluate(populations[i], tasks, vms))
  }

  /** A history holding every population's scores, in order, is `EvaluateAll`. */
  lemma ScoredAll(history: seq<seq<Scored>>, populations: seq<seq<Assignment>>, tasks: seq<Task>, vms: seq<Vm>)
    requires ValidInstance(tasks, vms)
    requires forall i, j :: 0 <= i < |populations| && 0 <= j < |populations[i]| ==> Consistent(populations[i][j], tasks, vms)
    requires |history| == |populations|
    requires forall r :: 0 <= r < |history| ==> history[r] == Evaluate(populations[r], tasks, vms)
    ensures history == EvaluateAll(populations, tasks, vms)
  {
  }

  /** One more round appends its best. */
  lemma BestsSnoc(history: seq<seq<Scored>>, ev: seq<Scored>)
    requires NonEmptyRounds(history) && |ev| > 0
    ensures NonEmptyRounds(history + [ev])
    ensures Bests(history + [ev]) == Bests(history) + [RoundBest(ev)]
  {
    assert forall r :: 0 <= r < |history| ==> (history + [ev])[r] == history[r];
  }

  /** One more round extends the fold by one `Replace` with its best. */
  lemma RoundsSnoc(seed: Incumbent, bests: seq<Scored>, b: Scored)
    ensures Rounds(seed, bests + [b]) == Replace(Rounds(seed, bests), b)
  {
    assert (bests + [b])[..|bests|] == bests;
  }

  /** The incumbent after the first `m` rounds is never cheaper than the
      one after all of them. */
  lemma {:induction false} RoundsNeverRise(seed: Incumbent, bests: seq<Scored>, m: nat)
    requires m <= |bests|
    ensures Rounds(seed, bests).cost <= Rounds(seed, bests[..m]).cost
    decreases |bests|
  {
    if m < |bests| {
      var n := |bests| - 1;
      RoundsNeverRise(seed, bests[..n], m);
      assert bests[..n][..m] == bests[..m];
    } else {
      assert bests[..m] == bests;
    }
  }

  /** A later round whose best only ties the incumbent does not displace
      it: once the cost after `m` rounds is also the final cost, the final
      incumbent is the one found after `m` rounds. */
  lemma {:induction false} LaterTiesKeepIncumbent(seed: Incumbent, bests: seq<Scored>, m: nat)
    requires m <= |bests|
    ensures Rounds(seed, bests).cost == Rounds(seed, bests[..m]).cost ==>
              Rounds(seed, bests) == Rounds(seed, bests[..m])
    decreases |bests|
  {
    if m < |bests| {
      var n := |bests| - 1;
      assert bests[..n][..m] == bests[..m];
      RoundsNeverRise(seed, bests[..n], m);
      LaterTiesKeepIncumbent(seed, bests[..n], m);
    } else {
      assert bests[..m] == bests;
    }
  }

  /** The fold keeps `BestSoFar`: the incumbent after any rounds is no
      dearer than the seed or any scored candidate, and is one of them. */
  lemma {:induction false} RoundsAreBestSoFar(seed: Incumbent, history: seq<seq<Scored>>)
    requires NonEmptyRounds(history)
    ensures BestSoFar(Rounds(seed, Bests(history)), seed, history)
  {
    if |history| > 0 {
      var n := |history| - 1;
      PrefixNonEmpty(history, n);
      RoundsAreBestSoFar(seed, history[..n]);
      RoundKeepsBestSoFar(Rounds(seed, Bests(history[..n])), seed, history[..n], history[n]);
      assert history[..n] + [history[n]] == history;
      BestsSnoc(history[..n], history[n]);
      assert Bests(history)[..n] == Bests(history[..n]);
    }
  }


  /** What the driver knows of its incumbent after the scored populations
      `history`: it costs no more than the seed and is the seed when it
      costs as much, it is the seed or one of the scored candidates, and no
      scored candidate is cheaper. */
  ghost predicate BestSoFar(inc: Incumbent, seed: Incumbent, history: seq<seq<Scored>>) {
    && inc.cost <= seed.cost
    && (inc.cost == seed.cost ==> inc == seed)
    && (inc == seed || exists r, j :: 0 <= r < |history| && 0 <= j < |history[r]|
                                      && inc == Incumbent(history[r][j].solution, history[r][j].cost))
    && forall r, j :: 0 <= r < |history| && 0 <= j < |history[r]| ==> inc.cost <= history[r][j].cost
  }

  /** One round of ranking and replacement keeps `BestSoFar`. */
  lemma RoundKeepsBestSoFar(inc: Incumbent, seed: Incumbent, history: seq<seq<Scored>>, ev: seq<Scored>)
    requires BestSoFar(inc, seed, history)
    requires |ev| > 0
    ensures BestSoFar(Replace(inc, Rank(ev)[0]), seed, history + [ev])
  {
    var b := Rank(ev)[0];
    RankedHeadIsFirstMinimum(ev);
    var k := FirstMin(Costs(ev)).value;
    var inc' := Replace(inc, b);
    var history' := history + [ev];
    assert history'[|history|] == ev;
    assert forall r :: 0 <= r < |history| ==> history'[r] == history[r];
    if inc' != inc {
      assert inc' == Incumbent(history'[|history|][k].solution, history'[|history|][k].cost);
    }
  }

  /** The loop invariant of the driver once the populations before
      `|history|` have been scored: `history` holds their scores, and the
      incumbent is a consistent schedule, complete whenever VM names are
      non-empty, carrying its own makespan and best so far. */
  ghost predicate Progress(inc: Incumbent, seed: Incumbent, history: seq<seq<Scored>>,
                           populations: seq<seq<Assignment>>, tasks: seq<Task>, vms: seq<Vm>)
    requires ValidInstance(tasks, vms)
    requires |history| <= |populations|
    requires forall i, j :: 0 <= i < |populations| && 0 <= j < |populations[i]| ==> Consistent(populations[i][j], tasks, vms)
  {
    && (forall r :: 0 <= r < |history| ==> history[r] == Evaluate(populations[r], tasks, vms))
    && BestSoFar(inc, seed, history)
    && Consistent(inc.assignment, tasks, vms)
    && (NamesNonEmpty(vms) ==> Complete(inc.assignment, tasks, vms))
    && inc.cost == EstimatedMakespan(inc.assignment, tasks, vms)
  }

  /** Before any population is scored the greedy seed satisfies `Progress`. */
  lemma StartProgress(seed: Incumbent, populations: seq<seq<Assignment>>, tasks: seq<Task>, vms: seq<Vm>)
    requires ValidInstance(tasks, vms)
    requires forall i, j :: 0 <= i < |populations| && 0 <= j < |populations[i]| ==> Consistent(populations[i][j], tasks, vms)
    requires Consistent(seed.assignment, tasks, vms)
    requires NamesNonEmpty(vms) ==> Complete(seed.assignment, tasks, vms)
    requires seed.cost == EstimatedMakespan(seed.assignment, tasks, vms)
    ensures Progress(seed, seed, [], populations, tasks, vms)
  {
  }

  /** Appending the next population's scores keeps `history` the list of
      scored populations. */
  lemma ScoresExtend(history: seq<seq<Scored>>, populations: seq<seq<Assignment>>, tasks: seq<Task>, vms: seq<Vm>)
    requires ValidInstance(tasks, vms)
    requires |history| < |populations|
    requires forall i, j :: 0 <= i < |populations| && 0 <= j < |populations[i]| ==> Consistent(populations[i][j], tasks, vms)
    requires forall r :: 0 <= r < |history| ==> history[r] == Evaluate(populations[r], tasks, vms)
    ensures forall r :: 0 <= r < |history| + 1 ==>
              (history + [Evaluate(populations[|history|], tasks, vms)])[r] == Evaluate(populations[r], tasks, vms)
  {
  }

  /** The incumbent after a round is a consistent schedule carrying its
      own makespan, complete when VM names are non-empty: it is either the
      old incumbent or a candidate of the population. */
  lemma ReplacementIsValid(inc: Incumbent, pop: seq<Assignment>, tasks: seq<Task>, vms: seq<Vm>)
    requires ValidInstance(tasks, vms) && |pop| > 0
    requires forall j :: 0 <= j < |pop| ==> Consistent(pop[j], tasks, vms) && pop[j].Keys == Ids(tasks)
    requires Consistent(inc.assignment, tasks, vms)
    requires NamesNonEmpty(vms) ==> Complete(inc.assignment, tasks, vms)
    requires inc.cost == EstimatedMakespan(inc.assignment, tasks, vms)
    ensures var next := Replace(inc, Rank(Evaluate(pop, tasks, vms))[0]);
            && Consistent(next.assignment, tasks, vms)
            && (NamesNonEmpty(vms) ==> Complete(next.assignment, tasks, vms))
            && next.cost == EstimatedMakespan(next.assignment, tasks, vms)
  {
    var ev := Evaluate(pop, tasks, vms);
    RankedHeadIsFirstMinimum(ev);
    var k := FirstMin(Costs(ev)).value;
    var best := Rank(ev)[0];
    assert best == ev[k];
    if best.cost < inc.cost {
      assert Replace(inc, best) == Incumbent(pop[k], EstimatedMakespan(pop[k], tasks, vms));
    } else {
      assert Replace(inc, best) == inc;
    }
  }

  /** Scoring the next population, ranking it and replacing the incumbent
      keeps `Progress`. */
  lemma AdvanceProgress(inc: Incumbent, seed: Incumbent, history: seq<seq<Scored>>,
                        populations: seq<seq<Assignment>>, tasks: seq<Task>, vms: seq<Vm>)
    requires ValidInstance(tasks, vms)
    requires |history| < |populations| && |populations[|history|]| > 0
    requires forall i, j :: 0 <= i < |populations| && 0 <= j < |populations[i]| ==>
               Consistent(populations[i][j], tasks, vms) && populations[i][j].Keys == Ids(tasks)
    requires Progress(inc, seed, history, populations, tasks, vms)
    ensures Progress(Replace(inc, Rank(Evaluate(populations[|history|], tasks, vms))[0]), seed,
                     history + [Evaluate(populations[|history|], tasks, vms)], populations, tasks, vms)
  {
    var pop := populations[|history|];
    RoundKeepsBestSoFar(inc, seed, history, Evaluate(pop, tasks, vms));
    ScoresExtend(history, populations, tasks, vms);
    ReplacementIsValid(inc, pop, tasks, vms);
  }

  /** Reads the driver's guarantees off `Progress` once every population
      has been scored. */
  lemma Conclude(inc: Incumbent, seed: Incumbent, history: seq<seq<Scored>>,
                 populations: seq<seq<Assignment>>, tasks: seq<Task>, vms: seq<Vm>)
    requires ValidInstance(tasks, vms)
    requires |history| == |populations|
    requires forall i, j :: 0 <= i < |populations| && 0 <= j < |populations[i]| ==> Consistent(populations[i][j], tasks, vms)
    requires Progress(inc, seed, history, populations, tasks, vms)
    ensures forall i, j :: 0 <= i < |populations| && 0 <= j < |populations[i]| ==>
              inc.cost <= EstimatedMakespan(populations[i][j], tasks, vms)
    ensures inc == seed
            || exists i, j :: 0 <= i < |populations| && 0 <= j < |populations[i]| && inc.assignment == populations[i][j]
  {
    forall i, j | 0 <= i < |populations| && 0 <= j < |populations[i]|
      ensures inc.cost <= EstimatedMakespan(populations[i][j], tasks, vms)
    {
      assert history[i][j].cost == EstimatedMakespan(populations[i][j], tasks, vms);
    }
    if inc != seed {
      var r, j :| 0 <= r < |history| && 0 <= j < |history[r]| && inc == Incumbent(history[r][j].solution, history[r][j].cost);
      assert inc.assignment == populations[r][j];
    }
  }

  /** The iterations of the driver: for every population, score it, rank
      it, replace the incumbent only when the round's best is strictly
      cheaper, and relearn the model from the elite. `history` records the
      scored populations for the proof. */
  method Iterate(tasks: seq<Task>, vms: seq<Vm>, eliteSize: nat, populations: seq<seq<Assignment>>,
                 seedAssignment: Assignment, seedCost: real, initialModel: Model)
    returns (bestAssignment: Assignment, bestCost: real, probabilityModel: Model, ghost history: seq<seq<Scored>>)
    requires ValidInstance(tasks, vms) && |vms| > 0
    requires |populations| > 0 ==> eliteSize > 0
    requires forall i :: 0 <= i < |populations| ==> |populations[i]| > 0
    requires forall i, j :: 0 <= i < |populations| && 0 <= j < |populations[i]| ==>
               Consistent(populations[i][j], tasks, vms) && populations[i][j].Keys == Ids(tasks)
    requires Progress(Incumbent(seedAssignment, seedCost), Incumbent(seedAssignment, seedCost), [], populations, tasks, vms)
    requires Normalizable(initialModel, tasks, vms)
    ensures |history| == |populations|
    ensures Progress(Incumbent(bestAssignment, bestCost), Incumbent(seedAssignment, seedCost), history, populations, tasks, vms)
    ensures Normalizable(probabilityModel, tasks, vms)
    ensures history == EvaluateAll(populations, tasks, vms)
    ensures Incumbent(bestAssignment, bestCost) == Rounds(Incumbent(seedAssignment, seedCost), Bests(EvaluateAll(populations, tasks, vms)))
  {
    bestAssignment, bestCost, probabilityModel := seedAssignment, seedCost, initialModel;
    ghost var seed := Incumbent(seedAssignment, seedCost);
    history := [];
    for i := 1 to |populations| + 1
      invariant |history| == i - 1
      invariant Progress(Incumbent(bestAssignment, bestCost), seed, history, populations, tasks, vms)
      invariant Normalizable(probabilityModel, tasks, vms)
      invariant NonEmptyRounds(history)
      invariant Incumbent(bestAssignment, bestCost) == Rounds(seed, Bests(history))
    {
      var population := populations[i - 1];
      var evaluatedPopulation := Evaluate(population, tasks, vms);
      // Python sorts `evaluated_population` in place.
      var ranked := Rank(evaluatedPopulation);
      var eliteSolutions := Elite(ranked, eliteSize);
      var currentBest := ranked[0];

      ghost var before := Incumbent(bestAssignment, bestCost);
      AdvanceProgress(before, seed, history, populations, tasks, vms);
      if currentBest.cost < bestCost {
        bestCost := currentBest.cost;
        bestAssignment := currentBest.solution;
      }
      assert Incumbent(bestAssignment, bestCost) == Replace(before, currentBest);
      assert evaluatedPopulation == Evaluate(populations[|history|], tasks, vms);
      BestsSnoc(history, evaluatedPopulation);
      RoundsSnoc(seed, Bests(history), currentBest);
      history := history + [evaluatedPopulation];

      EliteFromPopulation(population, tasks, vms, eliteSize);
      probabilityModel := UpdatedModel(eliteSolutions, tasks, vms, eliteSize);
    }
    ScoredAll(history, populations, tasks, vms);
  }

  /** Seeds the incumbent with the greedy schedule, then for every iteration
      scores the population, ranks it, replaces the incumbent only when the
      round's best is strictly cheaper, and relearns the model from the
      elite. The result never costs more than the greedy seed, costs no
      more than any sampled candidate, is the seed or one of the sampled
      candidates, and is the seed itself whenever it costs as much. */
  method EdaOptimizeSchedule(tasks: seq<Task>, vms: seq<Vm>, iterations: nat, populationSize: nat, eliteSize: nat,
                             populations: seq<seq<Assignment>>)
    returns (bestAssignment: Assignment)
    requires ValidInstance(tasks, vms)
    requires |populations| == iterations
    requires forall i :: 0 <= i < iterations ==> |populations[i]| == populationSize
    requires |tasks| > 0 && |vms| > 0 ==>
               forall i, j :: 0 <= i < iterations && 0 <= j < |populations[i]| ==>
                 Consistent(populations[i][j], tasks, vms) && populations[i][j].Keys == Ids(tasks)
    requires |tasks| > 0 && |vms| > 0 && iterations > 0 ==> populationSize > 0 && eliteSize > 0
    ensures |tasks| == 0 || |vms| == 0 ==> bestAssignment == map[]
    ensures |tasks| > 0 && |vms| > 0 ==> Consistent(bestAssignment, tasks, vms)
    ensures |tasks| > 0 && |vms| > 0 && NamesNonEmpty(vms) ==> Complete(bestAssignment, tasks, vms)
    ensures |tasks| > 0 && |vms| > 0 ==>
              && Consistent(GreedyAssignment(tasks, vms), tasks, vms)
              && EstimatedMakespan(bestAssignment, tasks, vms) <= EstimatedMakespan(GreedyAssignment(tasks, vms), tasks, vms)
              && (EstimatedMakespan(bestAssignment, tasks, vms) == EstimatedMakespan(GreedyAssignment(tasks, vms), tasks, vms)
                  ==> bestAssignment == GreedyAssignment(tasks, vms))
    ensures |tasks| > 0 && |vms| > 0 ==>
              forall i, j :: 0 <= i < iterations && 0 <= j < |populations[i]| ==>
                EstimatedMakespan(bestAssignment, tasks, vms) <= EstimatedMakespan(populations[i][j], tasks, vms)
    ensures |tasks| > 0 && |vms| > 0 ==>
              bestAssignment == GreedyAssignment(tasks, vms)
              || exists i, j :: 0 <= i < iterations && 0 <= j < |populations[i]| && bestAssignment == populations[i][j]
    ensures |tasks| > 0 && |vms| > 0 ==>
              && Consistent(GreedyAssignment(tasks, vms), tasks, vms)
              && NonEmptyRounds(EvaluateAll(populations, tasks, vms))
              && bestAssignment == Rounds(Incumbent(GreedyAssignment(tasks, vms), EstimatedMakespan(GreedyAssignment(tasks, vms), tasks, vms)),
                                          Bests(EvaluateAll(populations, tasks, vms))).assignment
  {
    var numVms := |vms|;
    var numTasks := |tasks|;
    if numTasks == 0 || numVms == 0 {
      return map[];
    }

    bestAssignment := InitializeGreedy(tasks, vms);
    var bestCost := CalculateEstimatedMakespan(bestAssignment, tasks, vms);
    ghost var seed := Incumbent(bestAssignment, bestCost);
    var probabilityModel := InitialModel(tasks, vms);
    StartProgress(seed, populations, tasks, vms);
    ghost var history;
    bestAssignment, bestCost, probabilityModel, history :=
      Iterate(tasks, vms, eliteSize, populations, bestAssignment, bestCost, probabilityModel);
    Conclude(Incumbent(bestAssignment, bestCost), seed, history, populations, tasks, vms);
  }
}
