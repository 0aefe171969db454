# EDA task scheduler: a Dafny model

This project models the optimizer in `eda_algorithm.py`, which places tasks
on virtual machines so that the estimated makespan is small. The model covers
its four parts:

- **Cost function.** `calculate_estimated_makespan` adds `cpu_load / cpu_cores`
  per VM and takes the largest sum.
- **Greedy seed.** `initialize_greedy` is longest-processing-time-first list
  scheduling with a strict `<` scan, so the first VM in list order wins a tie.
- **Probability model** of `eda_optimize_schedule`: the capacity-proportional
  start, the elite frequency count and the smoothed re-weighting. The
  renormalisation done before a draw is stated on its own
  (`Probability.Normalize`), because the draw itself is not modelled.
- **Driver.** It returns the empty schedule when there is no task or no VM,
  whatever the candidates in the populations it is handed, since Python
  returns before anything is drawn. Otherwise it scores and stably sorts
  each population, takes the elite prefix, and replaces the incumbent only
  when the round's best is strictly cheaper, so among equal-cost candidates
  the one found first is kept (`Eda.Rounds`).

Arithmetic is exact `real`. A schedule is a `map<int, string>` from task id to
VM name. Tasks and VMs are sequences with distinct ids and distinct names:
the Python code builds dictionaries from them, and with distinct keys the
dictionaries iterate in list order. Per-VM running values (finish times,
loads) are sequences parallel to the VM list.

Modules, one file each:

- `Records`: tasks, VMs, schedules, and the input conditions.
- `Aggregates`: sums, maximum, first minimum.
- `Sorting`: a generic stable sort.
- `Makespan`: the cost function.
- `Greedy`: the greedy seed.
- `Probability`: the weight model.
- `Selection`: scoring, ranking and the elite.
- `Eda`: the driver.
- `Scenario`: a worked two-task instance.

The greedy seed is specified twice:

- `Greedy.Run` is a functional fold over the sorted tasks.
- `Greedy.InitializeGreedy` is the nested loop as written.

The method is proved to compute the fold. The cost function likewise has a
recursive definition (`Makespan.EstimatedMakespan`) and a loop over the
schedule's entries in arbitrary order (`Makespan.CalculateEstimatedMakespan`),
and the loop is proved to compute the definition.

The sampler draws from a random-number library, so the driver takes the
populations as an input: `populations[i - 1]` is the population drawn in
iteration `i`. The driver still computes and updates the probability model
every round and keeps it sampleable. The populations it is given, though, do
not depend on those weights.

Three behaviours of the code are easy to misread, and the model follows the
code in each:

- **Ties between tasks of equal load.** Equal-load tasks keep their input
  order (Python's sort is stable); they are not ordered by id.
  `Greedy.SortByLoadDesc` states exactly that.
- **Coverage.** A task is committed only when `if best_vm_name:` is true, so
  a VM named `""` is never used and a task whose best VM has that name stays
  unassigned. Coverage is therefore proved under the condition that every VM
  name is non-empty.
- **`elite_size` larger than the population.** It is not rejected. The
  slice keeps the whole population, but the re-weighting formula still
  divides by `elite_size`. The model does the same.

## Model

| member | source | states |
|---|---|---|
| Makespan.EstimatedMakespan | eda_algorithm.py:18-28 | The makespan is 0 with no VM, at least every VM's accumulated load/cores (idle VMs count 0), and equal to one of them: the maximum over the VMs. |
| Aggregates.MaxOf | eda_algorithm.py:28 | `max(vm_loads.values()) if vm_loads else 0.0`: 0 for no values, otherwise a value that bounds every value and is one of them. |
| Makespan.CalculateEstimatedMakespan | eda_algorithm.py:13-28 | Walking the schedule's entries in any order and adding each task's load/cores to its VM's running total, then taking the maximum, gives exactly the makespan definition. |
| Makespan.AccumulateLoads | eda_algorithm.py:20-26 | Whatever order the schedule's entries are visited in, the running per-VM totals end equal to every VM's load (the sum of load/cores over the tasks placed on it). |
| Makespan.LoadOfEmpty | eda_algorithm.py:18 | Every VM's running total starts at 0: under the empty schedule a VM's load `Makespan.Load` is 0. |
| Makespan.LoadNonNegative | eda_algorithm.py:20-26 | With non-negative task loads, no VM's accumulated load is negative. |
| Makespan.MakespanBounds | eda_algorithm.py:18-28 | With non-negative loads the makespan is non-negative and at least load/cores of every task on the VM it is assigned to. |
| Makespan.SingleTaskSingleVm | eda_algorithm.py:20-28 | One task on one VM costs exactly its load divided by the VM's cores. |
| Makespan.LoadAfterCommit | eda_algorithm.py:20-26 | Assigning one more task to a VM adds that task's load/cores to that VM's total and leaves every other VM's total unchanged. |
| Makespan.CommitAddsToOneVm | eda_algorithm.py:20-26 | Assigning a fresh task to one VM adds its load/cores to that VM's total and to no other VM's total. |
| Makespan.LoadCoversTask | eda_algorithm.py:25-26 | A VM's accumulated time is at least the time of any single task assigned to it. |
| Sorting.SortBy | eda_algorithm.py:43 | The stable sort returns a permutation of its input, ordered by key, in which elements with equal keys keep their input order. |
| Greedy.SortByLoadDesc | eda_algorithm.py:43 | `sorted(..., reverse=True)` by load is a permutation in non-increasing load order that keeps equal-load tasks in input order. |
| Aggregates.FirstMin | eda_algorithm.py:46-56 | The inner scan with strict `<` picks nothing on an empty list; otherwise it picks a position holding the minimum, and every earlier position holds a strictly larger value. |
| Greedy.StepPlacesOnFirstMinimum | eda_algorithm.py:46-60 | One outer-loop iteration `Greedy.Step`: with no VM nothing changes; otherwise, if the first VM of minimal candidate finish time has an empty name nothing changes, and if its name is non-empty the task is placed on that VM, every earlier VM finishing strictly later, with only that VM's finish time advanced by load/cores; with non-empty names the placement always happens. |
| Greedy.CommittedAfterPrefix | eda_algorithm.py:39-60 | After every prefix of the sorted tasks, the fold `Greedy.Run` has placed only those tasks (all of them when names are non-empty and a VM exists), only on listed VMs, and every finish time equals that VM's committed load. |
| Greedy.ScanVms | eda_algorithm.py:46-56 | The inner loop as written picks the first minimum of the candidate finish times and reports that VM's candidate finish time. |
| Greedy.GreedyChoice | eda_algorithm.py:49-60 | With at least one VM and no empty VM name, the k-th task in sorted order goes to a VM on which its finish time is minimal. Every earlier VM in list order would finish strictly later. Only that VM's finish time advances, by the task's load/cores. |
| Greedy.GreedyCovers | eda_algorithm.py:45-60 | With at least one VM and no empty VM name, the greedy schedule `Greedy.GreedyAssignment` (the fold `Greedy.Run` over the sorted tasks) places every task exactly once, on a listed VM, and nothing else; with no VM it is empty. |
| Greedy.GreedyFinishTimesAreLoads | eda_algorithm.py:39-60 | The final finish times are exactly the loads the cost function charges, so the greedy schedule's makespan is the latest finish time. |
| Greedy.InitializeGreedy | eda_algorithm.py:32-62 | The nested loop returns the functional greedy schedule; it is consistent, complete when VM names are non-empty, and empty without VMs. |
| Scenario.GreedyExample | eda_algorithm.py:43-60 | Loads 10 and 5 on VMs with 2 and 1 cores: the load-10 task goes to the 2-core VM and the load-5 task to the 1-core VM. |
| Scenario.MakespanExample | eda_algorithm.py:18-28 | The makespan of that greedy schedule is 5. |
| Probability.TotalCores | eda_algorithm.py:95 | The total of the cores is 0 without VMs, positive with VMs, and at least every single VM's cores. |
| Probability.CapacityWeights | eda_algorithm.py:95-102 | Every VM's weight is its cores divided by the total cores, keyed by exactly the VM names. |
| Probability.CapacityWeightsAreShares | eda_algorithm.py:95-102 | The capacity weights are strictly positive and add up to 1. |
| Probability.InitialModel | eda_algorithm.py:94-103 | Every task gets the capacity weights; each task's weights sum to 1, so the model is sampleable. |
| Probability.Normalize | eda_algorithm.py:117-120 | When the weights sum to a positive value, each is divided by the sum and the results sum to 1; otherwise the weights are left alone. |
| Probability.FrequencyRow | eda_algorithm.py:146-150 | A task's row counts, per VM, how many elite solutions place it there; when every elite solution places the task on a listed VM the counts add up to the number of elite solutions. |
| Probability.Frequencies | eda_algorithm.py:146-150 | Every task and every VM has a count no larger than the elite; with complete elite solutions each task's counts sum to the elite's size. |
| Probability.CapacityBias | eda_algorithm.py:158 | The bias of a VM whose cores are part of the total lies between 0 and `elite_size / 5`, and is positive for a VM with cores and a non-empty elite. |
| Probability.UpdatedWeight | eda_algorithm.py:158-160 | The smoothed weight is strictly positive, and at most 1 + 1e-6 while the count does not exceed `elite_size`. |
| Probability.UpdatedWeightMonotone | eda_algorithm.py:160 | For one VM (a fixed capacity bias) and a fixed `elite_size`, more elite votes give a strictly larger weight. Across VMs with different core counts the capacity bias differs and no such ordering holds. |
| Probability.UpdatedRow | eda_algorithm.py:155-161 | One task's relearned weights are keyed by exactly the VM names, all strictly positive, at most 1 + 1e-6 when no count exceeds `elite_size`, and with a positive sum when there is a VM. |
| Probability.UpdatedModel | eda_algorithm.py:153-161 | After learning, every task has a strictly positive weight for every VM. With an elite no larger than `elite_size` no weight exceeds 1 + 1e-6. The model stays sampleable. |
| Selection.Evaluate | eda_algorithm.py:127-130 | Every candidate is paired with its makespan, in population order. |
| Selection.Rank | eda_algorithm.py:132 | The ranking is a permutation of the scored population, in non-decreasing cost, with equal-cost candidates in population order. |
| Selection.RankedHeadIsFirstMinimum | eda_algorithm.py:132-135 | The head of the ranking is the first cheapest candidate of the population and costs no more than any candidate. |
| Selection.Elite | eda_algorithm.py:134 | The elite holds `min(elite_size, population size)` solutions, the ranked prefix. |
| Selection.EliteIsCheapest | eda_algorithm.py:132-134 | The elite is a sub-multiset of the population, and no elite member costs more than any candidate left out. |
| Selection.EliteFromPopulation | eda_algorithm.py:134 | Every elite solution is one of the population's candidates. |
| Eda.Replace | eda_algorithm.py:138-140 | The incumbent cost never rises and ends no higher than the round's best. The incumbent is either kept or replaced by the round's best, and an unchanged cost means an unchanged incumbent. |
| Eda.RoundKeepsBestSoFar | eda_algorithm.py:132-140 | After one more round the incumbent is still no dearer than the seed, is the seed or a scored candidate, and is no dearer than any candidate scored so far. |
| Eda.AdvanceProgress | eda_algorithm.py:127-140 | One round of scoring, ranking and replacement keeps the incumbent consistent, complete, carrying its own makespan and best so far. |
| Eda.RoundsNeverRise | eda_algorithm.py:138-140 | Across rounds the incumbent's cost never rises: the fold over all rounds is no dearer than the fold over any prefix of them. |
| Eda.LaterTiesKeepIncumbent | eda_algorithm.py:138-140 | The first equal-cost candidate wins across rounds: when the final cost equals the cost after the first m rounds, the final incumbent is the one found after those m rounds. |
| Eda.RoundsAreBestSoFar | eda_algorithm.py:127-140 | The fold over any rounds is no dearer than the seed and any scored candidate, is the seed or a scored candidate, and is the seed whenever it costs as much. |
| Eda.RoundsSnoc | eda_algorithm.py:138-140 | One more round extends the fold by one replacement with that round's best. |
| Eda.EvaluateAll | eda_algorithm.py:127-130 | Scoring every population keeps one scored round per population, each holding that population's candidates with their makespans. |
| Eda.Iterate | eda_algorithm.py:107-161 | The loop over the populations returns exactly the fold `Eda.Rounds` of the seed over the best of every scored population, in order, so a later candidate that only ties the incumbent never replaces it. The incumbent is the best over all rounds, and the probability model stays sampleable. |
| Scenario.NoVmsGivesEmptySchedule | eda_algorithm.py:85-86 | A task with no VM yields the empty schedule, even when the population handed in names a VM that does not exist. |
| Eda.EdaOptimizeSchedule | eda_algorithm.py:66-165 | Empty tasks or VMs give an empty schedule, with no condition on the candidates' contents. Otherwise the result is consistent, complete when VM names are non-empty, no dearer than the greedy seed and than every sampled candidate, and either the seed or a sampled candidate. It is the seed whenever it costs as much as the seed. It is exactly the fold `Eda.Rounds` of the greedy seed over the best of every scored population, in order. |

## Left out

- Console output (`print` at eda_algorithm.py:77, 91, 141-142 and 163) has no effect on the result.
- Sampling with `random.choices` (eda_algorithm.py:110-124) is left out. The populations are an input, so the model does not claim that they follow the learned weights. It does state the normalisation that precedes each draw (`Probability.Normalize`) and that the model is always sampleable.
- Floating point is replaced by exact reals, and the `float('inf')` sentinel by `None`. Rounding, overflow and NaN are not modelled.
- The unused fields `ip`, `ram_gb`, the task `name` and the task `index` are not modelled.
- Duplicate task ids or VM names are excluded by precondition. The Python dictionaries would silently keep the last entry.
- Unknown ids and names are excluded by precondition. The cost function (`Makespan.EstimatedMakespan`, `Makespan.CalculateEstimatedMakespan`) and the frequency count (`Probability.Frequencies`, `Probability.UpdatedModel`) require `Consistent` schedules. Python raises `KeyError` at `tasks_dict[task_id]` and `vms_dict[vm_name]` (eda_algorithm.py:21-22) and at `new_freq_model[task_id][vm_name]` (eda_algorithm.py:150) when an id or name is unknown. Every schedule the driver scores or counts is its greedy seed or a sampled candidate, and both are consistent.
- Negative `iterations`, `population_size` and `elite_size` are excluded by their type `nat`. Python accepts them:
  - a negative `iterations` gives an empty `range`, so the greedy seed is returned;
  - a negative `elite_size` makes `[:elite_size]` drop entries from the end;
  - with a negative `elite_size` the denominator `elite_size + capacity_bias` at eda_algorithm.py:160 can be negative or zero.
- Division by zero is excluded by precondition:
  - `cpu_cores` must be positive;
  - `elite_size` must be positive whenever the loop runs.
- Python raises `IndexError` at `evaluated_population[0]` when `population_size` is 0 and the loop runs. The model instead requires a positive population size.
- Eda.EdaOptimizeSchedule: the returned schedule is proved complete only when no VM name is empty. With an empty name the greedy seed may leave tasks unplaced (`if best_vm_name:`), exactly as the code does.
- Greedy.GreedyCovers: coverage is stated only for non-empty VM names, for the same reason.
- Dictionary iteration order is taken to be the list order of the VMs and tasks. That is what Python's insertion-ordered dictionaries give when ids and names are distinct.
