/** Scoring a population and picking the round's best and the elite: the
    `(cost, solution)` list, its stable ascending sort by cost, and the
    `[:elite_size]` prefix. */
module Selection {
  import opened Records
  import opened Aggregates
  import opened Sorting
  import opened Makespan

  /** A candidate schedule with its estimated makespan. */
  datatype Scored = Scored(cost: real, solution: Assignment)

  function CostOf(s: Scored): real {
    s.cost
  }

  function Min(a: nat, b: nat): nat {
    if a <= b then a else b
  }

  /** Every candidate of the population scored by the cost function, in
      population order. */
  function Evaluate(pop: seq<Assignment>, tasks: seq<Task>, vms: seq<Vm>): (ev: seq<Scored>)
    requires ValidInstance(tasks, vms)
    requires forall i :: 0 <= i < |pop| ==> Consistent(pop[i], tasks, vms)
    ensures |ev| == |pop|
    ensures forall i :: 0 <= i < |pop| ==> ev[i].solution == pop[i]
    ensures forall i :: 0 <= i < |pop| ==> ev[i].cost == EstimatedMakespan(pop[i], tasks, vms)
  {
    seq(|pop|, i requires 0 <= i < |pop| => Scored(EstimatedMakespan(pop[i], tasks, vms), pop[i]))
  }

  function Costs(ev: seq<Scored>): (c: seq<real>)
    ensures |c| == |ev|
    ensures forall i :: 0 <= i < |ev| ==> c[i] == ev[i].cost
  {
    seq(|ev|, i requires 0 <= i < |ev| => ev[i].cost)
  }

  /** `evaluated_population.sort(key=cost)`: a permutation in ascending cost
      order in which candidates of equal cost keep population order. */
  function Rank(ev: seq<Scored>): (r: seq<Scored>)
    ensures multiset(r) == multiset(ev)
    ensures |r| == |ev|
    ensures forall i, j :: 0 <= i < j < |r| ==> r[i].cost <= r[j].cost
    ensures forall k :: WithKey(r, CostOf, k) == WithKey(ev, CostOf, k)
  {
    var r := SortBy(ev, CostOf);
    assert forall i, j :: 0 <= i < j < |r| ==> CostOf(r[i]) <= CostOf(r[j]);
    r
  }

  /** The solutions of the first `elite_size` ranked candidates (all of them
      when there are fewer). */
  function Elite(ranked: seq<Scored>, eliteSize: nat): (e: seq<Assignment>)
    ensures |e| == Min(eliteSize, |ranked|)
    ensures forall i :: 0 <= i < |e| ==> e[i] == ranked[i].solution
  {
    var n := Min(eliteSize, |ranked|);
    seq(n, i requires 0 <= i < n => ranked[i].solution)
  }

  /** The head of the ranking, `evaluated_population[0]`, is the first
      candidate in population order whose cost is the round's minimum. */
  lemma RankedHeadIsFirstMinimum(ev: seq<Scored>)
    requires |ev| > 0
    ensures FirstMin(Costs(ev)).Some?
    ensures Rank(ev)[0] == ev[FirstMin(Costs(ev)).value]
    ensures forall j :: 0 <= j < |ev| ==> Rank(ev)[0].cost <= ev[j].cost
  {
    var r := Rank(ev);
    var i := FirstMin(Costs(ev)).value;
    var m := ev[i].cost;
    assert r[0] in multiset(ev);
    var p :| 0 <= p < |ev| && ev[p] == r[0];
    assert Costs(ev)[i] <= Costs(ev)[p];
    assert ev[i] in multiset(r);
    var q :| 0 <= q < |r| && r[q] == ev[i];
    assert r[0].cost == m;
    WithKeyFirst(r, CostOf, m, 0);
    forall j | 0 <= j < i ensures CostOf(ev[j]) != m {
      assert Costs(ev)[i] < Costs(ev)[j];
    }
    WithKeyFirst(ev, CostOf, m, i);
    assert WithKey(r, CostOf, m) == WithKey(ev, CostOf, m);
  }

  /** The elite is `min(elite_size, population size)` candidates of the
      population, and none of them costs more than any candidate left out. */
  lemma EliteIsCheapest(ev: seq<Scored>, eliteSize: nat)
    ensures
      var r := Rank(ev);
      var n := Min(eliteSize, |ev|);
      && multiset(r[..n]) <= multiset(ev)
      && forall x, y :: x in r[..n] && y in multiset(ev) - multiset(r[..n]) ==> x.cost <= y.cost
  {
    var r := Rank(ev);
    var n := Min(eliteSize, |ev|);
    SplitMultiset(r, n);
    PrefixBelowSuffix(r, n);
  }

  /** A sequence's multiset is its prefix's plus its suffix's. */
  lemma SplitMultiset(r: seq<Scored>, n: nat)
    requires n <= |r|
    ensures multiset(r) - multiset(r[..n]) == multiset(r[n..])
  {
    assert r == r[..n] + r[n..];
  }

  /** In a sequence sorted by cost, nothing in a prefix costs more than
      anything after it. */
  lemma PrefixBelowSuffix(r: seq<Scored>, n: nat)
    requires n <= |r|
    requires forall i, j :: 0 <= i < j < |r| ==> r[i].cost <= r[j].cost
    ensures forall x, y :: x in r[..n] && y in multiset(r[n..]) ==> x.cost <= y.cost
  {
    forall x, y | x in r[..n] && y in multiset(r[n..]) ensures x.cost <= y.cost {
      var a :| 0 <= a < n && r[..n][a] == x;
      var b :| 0 <= b < |r| - n && r[n..][b] == y;
      assert r[a] == x && r[n + b] == y;
    }
  }

  /** Every elite solution is a member of the population. */
  lemma EliteFromPopulation(pop: seq<Assignment>, tasks: seq<Task>, vms: seq<Vm>, eliteSize: nat)
    requires ValidInstance(tasks, vms)
    requires forall i :: 0 <= i < |pop| ==> Consistent(pop[i], tasks, vms)
    ensures forall e :: e in Elite(Rank(Evaluate(pop, tasks, vms)), eliteSize) ==> e in pop
  {
    var ev := Evaluate(pop, tasks, vms);
    var r := Rank(ev);
    var elite := Elite(r, eliteSize);
    forall e | e in elite ensures e in pop {
      var a :| 0 <= a < |elite| && elite[a] == e;
      RankedMember(ev, a);
      var b :| 0 <= b < |ev| && ev[b] == r[a];
      assert pop[b] == e;
    }
  }

  /** Every ranked entry is an entry of the scored population. */
  lemma RankedMember(ev: seq<Scored>, a: nat)
    requires a < |ev|
    ensures Rank(ev)[a] in ev
  {
    assert Rank(ev)[a] in multiset(Rank(ev));
  }
}
