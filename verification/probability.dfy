/** The probability model of the EDA: per task, a weight for every VM.
    Covers the capacity-proportional start, the elite frequency count, the
    smoothed re-weighting, and the renormalisation done before each draw. */
module Probability {
  import opened Records
  import opened Aggregates

  /** One task's weights, keyed by VM name. */
  type Weights = map<string, real>

  /** Task id to that task's weights. */
  type Model = map<int, Weights>

  /** The 1e-6 added to every updated weight. */
  const Epsilon: real := 0.000001

  function CoresVector(vms: seq<Vm>): (c: seq<real>)
    ensures |c| == |vms|
    ensures forall j :: 0 <= j < |vms| ==> c[j] == vms[j].cpuCores
  {
    seq(|vms|, j requires 0 <= j < |vms| => vms[j].cpuCores)
  }

  /** `sum(vm.cpu_cores for vm in vms)`. */
  function TotalCores(vms: seq<Vm>): (total: real)
    requires PositiveCores(vms)
    ensures |vms| == 0 ==> total == 0.0
    ensures |vms| > 0 ==> total > 0.0
    ensures forall j :: 0 <= j < |vms| ==> vms[j].cpuCores <= total
  {
    var c := CoresVector(vms);
    assert forall j :: 0 <= j < |vms| ==> c[j] <= Sum(c) by {
      forall j | 0 <= j < |vms| ensures c[j] <= Sum(c) {
        TermBelowSum(c, j);
      }
    }
    if |c| > 0 then SumPositive(c); Sum(c) else Sum(c)
  }

  /** A task's weights listed in VM order (`list(weights.values())`). */
  function WeightVector(w: Weights, vms: seq<Vm>): (r: seq<real>)
    requires forall j :: 0 <= j < |vms| ==> vms[j].name in w
    ensures |r| == |vms|
    ensures forall j :: 0 <= j < |vms| ==> r[j] == w[vms[j].name]
  {
    seq(|vms|, j requires 0 <= j < |vms| => w[vms[j].name])
  }

  /** The dictionary `{vm_name: ws[j]}` filled by a loop over the VMs in
      order; with distinct names it gives back exactly `ws`. */
  function Tabulate(vms: seq<Vm>, ws: seq<real>): (w: Weights)
    requires |ws| == |vms|
    ensures w.Keys == Names(vms)
    ensures DistinctNames(vms) ==> forall j :: 0 <= j < |vms| ==> w[vms[j].name] == ws[j]
  {
    if |vms| == 0 then map[]
    else
      var n := |vms| - 1;
      var prev := Tabulate(vms[..n], ws[..n]);
      TabulateLast(vms, ws, vms[..n], ws[..n], prev);
      prev[vms[n].name := ws[n]]
  }

  /** Adding the last VM's entry to the table of the others: the keys grow
      by its name and, with distinct names, the others' entries survive. */
  lemma TabulateLast(vms: seq<Vm>, ws: seq<real>, front: seq<Vm>, frontWs: seq<real>, prev: Weights)
    requires |ws| == |vms| > 0
    requires front == vms[..|vms| - 1] && frontWs == ws[..|vms| - 1]
    requires prev.Keys == Names(front)
    requires DistinctNames(front) ==> forall j :: 0 <= j < |front| ==> prev[front[j].name] == frontWs[j]
    ensures prev[vms[|vms| - 1].name := ws[|vms| - 1]].Keys == Names(vms)
    ensures DistinctNames(vms) ==>
              forall j :: 0 <= j < |vms| ==> prev[vms[|vms| - 1].name := ws[|vms| - 1]][vms[j].name] == ws[j]
  {
    var n := |vms| - 1;
    var w := prev[vms[n].name := ws[n]];
    NamesOfSnoc(vms);
    if DistinctNames(vms) {
      forall j | 0 <= j < n ensures w[vms[j].name] == ws[j] {
        assert front[j] == vms[j] && frontWs[j] == ws[j];
        assert vms[j].name in Names(front);
      }
    }
  }

  /** A model every task of which can be sampled: every VM has a
      non-negative weight and the weights sum to a positive value. */
  predicate Normalizable(m: Model, tasks: seq<Task>, vms: seq<Vm>) {
    && m.Keys == Ids(tasks)
    && forall id :: id in m ==>
         && (forall j :: 0 <= j < |vms| ==> vms[j].name in m[id] && m[id][vms[j].name] >= 0.0)
         && Sum(WeightVector(m[id], vms)) > 0.0
  }

  /** Every VM weighted by its share of the total cores. */
  function CapacityWeights(vms: seq<Vm>): (w: Weights)
    requires PositiveCores(vms) && DistinctNames(vms) && |vms| > 0
    ensures w.Keys == Names(vms)
    ensures forall j :: 0 <= j < |vms| ==> w[vms[j].name] == vms[j].cpuCores / TotalCores(vms)
  {
    Tabulate(vms, Divided(CoresVector(vms), TotalCores(vms)))
  }

  /** The capacity shares are positive and add up to 1. */
  lemma CapacityWeightsAreShares(vms: seq<Vm>)
    requires PositiveCores(vms) && DistinctNames(vms) && |vms| > 0
    ensures forall j :: 0 <= j < |vms| ==> CapacityWeights(vms)[vms[j].name] > 0.0
    ensures Sum(WeightVector(CapacityWeights(vms), vms)) == 1.0
  {
    var c := CoresVector(vms);
    var total := TotalCores(vms);
    var w := CapacityWeights(vms);
    forall j | 0 <= j < |vms| ensures w[vms[j].name] > 0.0 {
      PositiveShare(vms[j].cpuCores, total);
    }
    assert WeightVector(w, vms) == Divided(c, total);
    SharesSumToOne(c);
  }

  lemma PositiveShare(part: real, total: real)
    requires part > 0.0 && total > 0.0
    ensures part / total > 0.0
  {
  }

  /** The initial model: every task gets the capacity-proportional
      weights, which are positive and sum to 1. */
  function InitialModel(tasks: seq<Task>, vms: seq<Vm>): (m: Model)
    requires ValidInstance(tasks, vms) && |vms| > 0
    ensures m.Keys == Ids(tasks)
    ensures forall id, j :: id in m && 0 <= j < |vms| ==>
              vms[j].name in m[id] && m[id][vms[j].name] == vms[j].cpuCores / TotalCores(vms)
    ensures forall id :: id in m ==> Sum(WeightVector(m[id], vms)) == 1.0
    ensures Normalizable(m, tasks, vms)
  {
    var w := CapacityWeights(vms);
    CapacityWeightsAreShares(vms);
    map id | id in Ids(tasks) :: w
  }

  /** How many of the elite solutions put task `id` on the VM `name`. */
  function Count(elite: seq<Assignment>, id: int, name: string): (c: nat)
    ensures c <= |elite|
  {
    if |elite| == 0 then 0
    else (if id in elite[0] && elite[0][id] == name then 1 else 0) + Count(elite[1..], id, name)
  }

  /** A task's counts listed in VM order. */
  function CountVector(row: map<string, nat>, vms: seq<Vm>): (r: seq<real>)
    requires forall j :: 0 <= j < |vms| ==> vms[j].name in row
    ensures |r| == |vms|
    ensures forall j :: 0 <= j < |vms| ==> r[j] == row[vms[j].name] as real
  {
    seq(|vms|, j requires 0 <= j < |vms| => row[vms[j].name] as real)
  }

  /** 1 at the VM called `n`, 0 elsewhere. */
  function Indicator(vms: seq<Vm>, n: string): (r: seq<real>)
    ensures |r| == |vms|
    ensures forall j :: 0 <= j < |vms| ==> r[j] == (if vms[j].name == n then 1.0 else 0.0)
  {
    seq(|vms|, j requires 0 <= j < |vms| => if vms[j].name == n then 1.0 else 0.0)
  }

  /** Distinct names: a name is counted once if listed, not at all otherwise. */
  lemma {:induction false} IndicatorSum(vms: seq<Vm>, n: string)
    requires DistinctNames(vms)
    ensures Sum(Indicator(vms, n)) == if n in Names(vms) then 1.0 else 0.0
  {
    if |vms| > 0 {
      var rest := vms[1..];
      assert Indicator(vms, n)[1..] == Indicator(rest, n);
      NamesOfCons(vms);
      IndicatorSum(rest, n);
    }
  }

  /** The counts of task `id` over all VMs, in VM order. */
  function Tally(elite: seq<Assignment>, id: int, vms: seq<Vm>): (r: seq<real>)
    ensures |r| == |vms|
    ensures forall j :: 0 <= j < |vms| ==> r[j] == Count(elite, id, vms[j].name) as real
  {
    seq(|vms|, j requires 0 <= j < |vms| => Count(elite, id, vms[j].name) as real)
  }

  /** Each solution that places task `id` on a listed VM adds exactly one
      to that task's total count. */
  lemma {:induction false} TallySum(elite: seq<Assignment>, id: int, vms: seq<Vm>)
    requires DistinctNames(vms)
    requires forall e :: e in elite ==> id in e && e[id] in Names(vms)
    ensures Sum(Tally(elite, id, vms)) == |elite| as real
  {
    if |elite| == 0 {
      SumOfZeros(Tally(elite, id, vms));
    } else {
      var e := elite[0];
      assert e in elite;
      assert forall x :: x in elite[1..] ==> x in elite;
      var ind := Indicator(vms, e[id]);
      var rest := Tally(elite[1..], id, vms);
      assert Tally(elite, id, vms) == Plus(ind, rest);
      SumPlus(ind, rest);
      IndicatorSum(vms, e[id]);
      TallySum(elite[1..], id, vms);
    }
  }

  /** One task's row of `new_freq_model`: for every VM, how many elite
      solutions put the task there. When every elite solution places the
      task on a listed VM, the row adds up to the number of elite
      solutions. */
  function FrequencyRow(elite: seq<Assignment>, id: int, vms: seq<Vm>): (row: map<string, nat>)
    requires DistinctNames(vms)
    ensures row.Keys == Names(vms)
    ensures forall j :: 0 <= j < |vms| ==> row[vms[j].name] == Count(elite, id, vms[j].name)
    ensures (forall e :: e in elite ==> id in e && e[id] in Names(vms)) ==>
              Sum(CountVector(row, vms)) == |elite| as real
  {
    var row := map n | n in Names(vms) :: Count(elite, id, n);
    if forall e :: e in elite ==> id in e && e[id] in Names(vms) then
      assert CountVector(row, vms) == Tally(elite, id, vms);
      TallySum(elite, id, vms);
      row
    else row
  }

  /** `new_freq_model`: a row of counts for every task. When every elite
      solution places every task, each task's counts add up to the number
      of elite solutions. */
  function Frequencies(elite: seq<Assignment>, tasks: seq<Task>, vms: seq<Vm>): (f: map<int, map<string, nat>>)
    requires DistinctNames(vms)
    requires forall e :: e in elite ==> Consistent(e, tasks, vms)
    ensures f.Keys == Ids(tasks)
    ensures forall id :: id in f ==> f[id].Keys == Names(vms)
    ensures forall id, j :: id in f && 0 <= j < |vms| ==> vms[j].name in f[id] && f[id][vms[j].name] <= |elite|
    ensures (forall e :: e in elite ==> Complete(e, tasks, vms)) ==>
              forall id :: id in f ==> Sum(CountVector(f[id], vms)) == |elite| as real
  {
    map id | id in Ids(tasks) :: FrequencyRow(elite, id, vms)
  }

  /** `capacity_bias`: the VM's core share scaled by `elite_size / 5`. For
      a VM whose cores are part of the total it lies between 0 and
      `elite_size / 5`, and it is positive once the VM has cores and the
      elite is non-empty. */
  function CapacityBias(v: Vm, total: real, eliteSize: nat): (b: real)
    requires total > 0.0
    ensures 0.0 <= v.cpuCores ==> 0.0 <= b
    ensures 0.0 <= v.cpuCores <= total ==> b <= eliteSize as real / 5.0
    ensures 0.0 < v.cpuCores && 0 < eliteSize ==> 0.0 < b
  {
    var share := v.cpuCores / total;
    var scale := eliteSize as real / 5.0;
    assert 0.0 <= v.cpuCores ==> 0.0 <= share;
    assert v.cpuCores <= total ==> share <= 1.0;
    assert 0.0 < v.cpuCores ==> 0.0 < share;
    share * scale
  }

  /** `(freq + capacity_bias + 1e-6) / (elite_size + capacity_bias)`:
      always positive, and at most 1 + 1e-6 while the count does not
      exceed the elite size. */
  function UpdatedWeight(freq: nat, bias: real, eliteSize: nat): (w: real)
    requires eliteSize > 0 && bias >= 0.0
    ensures w > 0.0
    ensures freq <= eliteSize ==> w <= 1.0 + Epsilon
  {
    var d := eliteSize as real + bias;
    var w := (freq as real + bias + Epsilon) / d;
    assert freq <= eliteSize ==> w <= 1.0 + Epsilon by {
      if freq <= eliteSize {
        assert freq as real + bias + Epsilon <= d + Epsilon;
        assert (d + Epsilon) / d == 1.0 + Epsilon / d;
        assert Epsilon / d <= Epsilon;
      }
    }
    w
  }

  /** For one VM (a fixed capacity bias) and a fixed elite size, more elite
      votes strictly raise its weight. */
  lemma UpdatedWeightMonotone(f1: nat, f2: nat, bias: real, eliteSize: nat)
    requires eliteSize > 0 && bias >= 0.0 && f1 < f2
    ensures UpdatedWeight(f1, bias, eliteSize) < UpdatedWeight(f2, bias, eliteSize)
  {
    var d := eliteSize as real + bias;
    assert (f2 as real + bias + Epsilon) / d - (f1 as real + bias + Epsilon) / d == (f2 - f1) as real / d;
  }

  /** One task's new weights, from its counts, in VM order. */
  function UpdatedVector(row: map<string, nat>, vms: seq<Vm>, total: real, eliteSize: nat): (ws: seq<real>)
    requires PositiveCores(vms) && total > 0.0 && eliteSize > 0
    requires forall j :: 0 <= j < |vms| ==> vms[j].name in row
    ensures |ws| == |vms|
    ensures forall j :: 0 <= j < |vms| ==> ws[j] > 0.0
    ensures (forall j :: 0 <= j < |vms| ==> row[vms[j].name] <= eliteSize) ==>
              forall j :: 0 <= j < |vms| ==> ws[j] <= 1.0 + Epsilon
  {
    seq(|vms|, j requires 0 <= j < |vms| =>
      UpdatedWeight(row[vms[j].name], CapacityBias(vms[j], total, eliteSize), eliteSize))
  }

  /** One task's new weights, from its counts, keyed by VM name. */
  function UpdatedRow(row: map<string, nat>, vms: seq<Vm>, total: real, eliteSize: nat): (w: Weights)
    requires PositiveCores(vms) && DistinctNames(vms) && total > 0.0 && eliteSize > 0
    requires forall j :: 0 <= j < |vms| ==> vms[j].name in row
    ensures w.Keys == Names(vms)
    ensures forall j :: 0 <= j < |vms| ==> w[vms[j].name] > 0.0
    ensures (forall j :: 0 <= j < |vms| ==> row[vms[j].name] <= eliteSize) ==>
              forall j :: 0 <= j < |vms| ==> w[vms[j].name] <= 1.0 + Epsilon
    ensures |vms| > 0 ==> Sum(WeightVector(w, vms)) > 0.0
  {
    var ws := UpdatedVector(row, vms, total, eliteSize);
    var w := Tabulate(vms, ws);
    if |vms| > 0 then
      assert WeightVector(w, vms) == ws;
      SumPositive(ws);
      w
    else w
  }

  /** The learning step: every task's weights are recomputed from the elite
      counts. All weights are positive, so the model stays normalizable;
      while the elite is no larger than `elite_size` no weight exceeds
      1 + 1e-6. */
  function UpdatedModel(elite: seq<Assignment>, tasks: seq<Task>, vms: seq<Vm>, eliteSize: nat): (m: Model)
    requires ValidInstance(tasks, vms) && |vms| > 0 && eliteSize > 0
    requires forall e :: e in elite ==> Consistent(e, tasks, vms)
    ensures m.Keys == Ids(tasks)
    ensures forall id, j :: id in m && 0 <= j < |vms| ==> vms[j].name in m[id] && m[id][vms[j].name] > 0.0
    ensures |elite| <= eliteSize ==>
              forall id, j :: id in m && 0 <= j < |vms| ==> m[id][vms[j].name] <= 1.0 + Epsilon
    ensures Normalizable(m, tasks, vms)
  {
    var f := Frequencies(elite, tasks, vms);
    var total := TotalCores(vms);
    assert forall id, j :: id in f && 0 <= j < |vms| ==> vms[j].name in f[id] by {
      forall id, j | id in f && 0 <= j < |vms| ensures vms[j].name in f[id] {
        assert vms[j] in vms;
      }
    }
    map id | id in Ids(tasks) :: UpdatedRow(f[id], vms, total, eliteSize)
  }

  /** The renormalisation before a draw: weights divided by their sum when
      that sum is positive, left alone otherwise. No other member uses it:
      the draw it prepares is not modelled, so it stands alone. */
  function Normalize(ps: seq<real>): (r: seq<real>)
    ensures |r| == |ps|
    ensures Sum(ps) > 0.0 ==> Sum(r) == 1.0
    ensures Sum(ps) > 0.0 ==> forall i :: 0 <= i < |ps| ==> r[i] * Sum(ps) == ps[i]
    ensures Sum(ps) <= 0.0 ==> r == ps
  {
    var s := Sum(ps);
    if s > 0.0 then
      SumDivided(ps, s);
      Divided(ps, s)
    else ps
  }
}
